/** The folder scan: which entries of a directory listing become input paths,
    and the name of the file the composer writes back into that folder. */
module Scan {
  import opened Types

  /** The name of the spritesheet written into the scanned folder. */
  const OutputFilename: string := "spritesheet.png"

  /** The only extension the scan accepts, compared case-sensitively. */
  const PngExt: string := ".png"

  /** Joins a folder and a file name (path cleaning is not modelled). */
  function Join(folder: string, name: string): string {
    folder + "/" + name
  }

  /** Where the spritesheet of `folder` is written. */
  function OutputPath(folder: string): string {
    Join(folder, OutputFilename)
  }

  /** The extension found by scanning `path[..i]` backwards: the suffix of `path`
      that starts at the last '.' before index i, or "" when a '/' or the start
      of the path comes first. */
  function ExtBefore(path: string, i: nat): (e: string)
    requires i <= |path|
    ensures |e| <= |path|
    ensures e != [] ==> |path| - |e| < i && e == path[|path| - |e|..] && e[0] == '.'
    ensures e != [] ==> forall j :: |path| - |e| < j < i ==> path[j] != '.' && path[j] != '/'
    ensures e == [] ==> forall j :: 0 <= j < i && path[j] != '/' && (forall k :: j < k < i ==> path[k] != '/')
                                   ==> path[j] != '.'
    decreases i
  {
    if i == 0 || path[i - 1] == '/' then ""
    else if path[i - 1] == '.' then path[i - 1..]
    else ExtBefore(path, i - 1)
  }

  /** The file-name extension of `path`, the dot included, as filepath.Ext finds it. */
  function Ext(path: string): string {
    ExtBefore(path, |path|)
  }

  predicate IsPng(name: string) {
    Ext(name) == PngExt
  }

  /** Whether the scan keeps a listing entry. */
  predicate Keep(entry: Entry) {
    !entry.isDir && IsPng(entry.name)
  }

  /** The paths the scan returns for a successful listing, in listing order. */
  function PngPaths(folder: string, entries: seq<Entry>): (paths: seq<string>)
    ensures |paths| <= |entries|
  {
    if entries == [] then []
    else
      var last := entries[|entries| - 1];
      PngPaths(folder, entries[..|entries| - 1]) + (if Keep(last) then [Join(folder, last.name)] else [])
  }

  /** scanFolder: a failed listing yields its error and no paths; otherwise
      every kept entry, joined onto the folder, in listing order. */
  method ScanFolder(folder: string, listing: Result<seq<Entry>>) returns (r: Result<seq<string>>)
    ensures listing.Err? ==> r == Err(listing.error)
    ensures listing.Ok? ==> r == Ok(PngPaths(folder, listing.value))
  {
    if listing.Err? {
      return Err(listing.error);
    }
    var files := listing.value;
    var filePaths: seq<string> := [];
    for i := 0 to |files|
      invariant filePaths == PngPaths(folder, files[..i])
    {
      var file := files[i];
      assert files[..i + 1][..i] == files[..i];
      if !file.isDir && Ext(file.name) == PngExt {
        filePaths := filePaths + [Join(folder, file.name)];
      }
    }
    assert files[..|files|] == files;
    return Ok(filePaths);
  }

  /** A name passes the filter exactly when it ends in ".png", case included. */
  lemma PngIffSuffix(name: string)
    ensures IsPng(name) <==> |name| >= 4 && name[|name| - 4..] == PngExt
  {
    if |name| >= 4 && name[|name| - 4..] == PngExt {
      EndsInPng(name);
    }
  }

  lemma EndsInPng(name: string)
    requires |name| >= 4 && name[|name| - 4..] == PngExt
    ensures Ext(name) == PngExt
  {
    var n := |name|;
    assert name[n - 1] == 'g' && name[n - 2] == 'n' && name[n - 3] == 'p' && name[n - 4] == '.' by {
      assert name[n - 4..][3] == 'g' && name[n - 4..][2] == 'n' && name[n - 4..][1] == 'p' && name[n - 4..][0] == '.';
    }
    assert ExtBefore(name, n - 3) == name[n - 4..];
    assert ExtBefore(name, n - 2) == ExtBefore(name, n - 3);
    assert ExtBefore(name, n - 1) == ExtBefore(name, n - 2);
    assert ExtBefore(name, n) == ExtBefore(name, n - 1);
  }

  /** The filter is case-sensitive and looks only at the last extension; the
      spritesheet's own name passes it. */
  lemma FilterExamples()
    ensures IsPng("a.png") && IsPng(OutputFilename)
    ensures !IsPng("a.PNG") && !IsPng("a.png.bak") && !IsPng("png")
  {
    PngIffSuffix("a.png");
    PngIffSuffix(OutputFilename);
    PngIffSuffix("a.PNG");
    PngIffSuffix("a.png.bak");
    PngIffSuffix("png");
  }

  /** Scanning a listing in two parts gives the two results one after the
      other: the scan keeps listing order. */
  lemma {:induction false} PngPathsAppend(folder: string, a: seq<Entry>, b: seq<Entry>)
    ensures PngPaths(folder, a + b) == PngPaths(folder, a) + PngPaths(folder, b)
    decreases |b|
  {
    if b == [] {
      assert a + b == a;
    } else {
      var b' := b[..|b| - 1];
      assert (a + b)[..|a + b| - 1] == a + b';
      PngPathsAppend(folder, a, b');
    }
  }

  /** A path is returned exactly when some entry is a non-directory ending in
      ".png" and the path is that entry's name joined onto the folder. */
  lemma PngPathsMember(folder: string, entries: seq<Entry>, p: string)
    ensures p in PngPaths(folder, entries) <==>
            exists i :: 0 <= i < |entries| && Keep(entries[i]) && p == Join(folder, entries[i].name)
  {
    if p in PngPaths(folder, entries) {
      var i := KeptSource(folder, entries, p);
    }
    if exists i :: 0 <= i < |entries| && Keep(entries[i]) && p == Join(folder, entries[i].name) {
      var i :| 0 <= i < |entries| && Keep(entries[i]) && p == Join(folder, entries[i].name);
      KeptReturned(folder, entries, i);
    }
  }

  /** Every returned path comes from a kept entry. */
  lemma {:induction false} KeptSource(folder: string, entries: seq<Entry>, p: string) returns (i: nat)
    requires p in PngPaths(folder, entries)
    ensures i < |entries| && Keep(entries[i]) && p == Join(folder, entries[i].name)
    decreases |entries|
  {
    var n := |entries|;
    var init := entries[..n - 1];
    if p in PngPaths(folder, init) {
      i := KeptSource(folder, init, p);
      assert entries[i] == init[i];
    } else {
      i := n - 1;
    }
  }

  /** Every kept entry's path is returned. */
  lemma {:induction false} KeptReturned(folder: string, entries: seq<Entry>, i: nat)
    requires i < |entries| && Keep(entries[i])
    ensures Join(folder, entries[i].name) in PngPaths(folder, entries)
    decreases |entries|
  {
    var n := |entries|;
    var init := entries[..n - 1];
    if i < n - 1 {
      assert init[i] == entries[i];
      KeptReturned(folder, init, i);
    }
  }

  /** A previous run's output, listed as a plain file, is picked up again as an input. */
  lemma OutputReingested(folder: string, entries: seq<Entry>)
    requires Entry(OutputFilename, false) in entries
    ensures OutputPath(folder) in PngPaths(folder, entries)
  {
    var i :| 0 <= i < |entries| && entries[i] == Entry(OutputFilename, false);
    PngIffSuffix(OutputFilename);
    PngPathsMember(folder, entries, OutputPath(folder));
  }
}
