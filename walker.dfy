/** The directory walk: which entries of a configured directory are printed,
    and the depth-first traversal of the configuration tree. Printing is
    modelled by returning the lines a call prints, in order. */
module Walker {
  import opened Wrappers
  import opened Paths
  import opened Config
  import opened Fs

  /** Some declared sub-directory of `directory` has `name` as its path. */
  predicate IsDeclared(directory: Directory, name: string) {
    exists i :: 0 <= i < |directory.subDirectories| && directory.subDirectories[i].path == name
  }

  /** `sub_directories.iter().find(|s| s.path == name)`: the first declared
      sub-directory whose path is `name`. */
  function FindByPath(subs: seq<Directory>, name: string): (r: Option<Directory>)
    ensures r.None? <==> forall i :: 0 <= i < |subs| ==> subs[i].path != name
    ensures r.Some? ==>
              r.value.path == name
              && exists i :: 0 <= i < |subs| && subs[i] == r.value
                             && forall j :: 0 <= j < i ==> subs[j].path != name
  {
    if subs == [] then None
    else if subs[0].path == name then Some(subs[0])
    else FindByPath(subs[1..], name)
  }

  /** `should_print`: an entry is printed exactly when its name is valid
      text, it is a directory, and its name is neither excluded nor the path
      of a declared sub-directory. */
  function ShouldPrint(entry: DirEntry, directory: Directory): (b: bool)
    ensures b <==> entry.name.Some? && entry.isDir
                   && entry.name.value !in directory.exclude
                   && !IsDeclared(directory, entry.name.value)
  {
    match entry.name
    case None => false
    case Some(name) =>
      entry.isDir
      && name !in directory.exclude
      && FindByPath(directory.subDirectories, name).None?
  }

  /** The path a directory resolves to below `base`: joined, then with the
      home marker expanded. */
  function FullPath(base: string, directory: Directory, home: Option<string>): string
  {
    ExpandTilde(Join(base, directory.path), home)
  }

  /** The lines the entry loop prints for a listing of `root`: the path of
      every readable entry that passes the filter, in enumeration order. */
  function Listed(root: string, entries: Listing, directory: Directory): seq<string>
  {
    if entries == [] then []
    else
      var last := entries[|entries| - 1];
      Listed(root, entries[..|entries| - 1], directory)
      + (if last.Ok? && ShouldPrint(last.value, directory)
         then [EntryPath(root, last.value.name.value)] else [])
  }

  /** What walking one configured directory does: its outcome and the lines it
      prints, in order. */
  datatype Walked = Walked(outcome: Result<(), IoError>, lines: seq<string>)

  /** `walk_directory(directory, base)`: an `onlySelf` directory prints its own
      path; otherwise a failed listing fails the directory with nothing
      printed, and a successful one prints the filtered entries and then
      everything its declared sub-directories print, each walked below the
      directory's own path with its failure ignored. */
  function Walk(fs: FileSystem, home: Option<string>, directory: Directory, base: string): Walked
    decreases directory
  {
    var full := FullPath(base, directory, home);
    if directory.onlySelf then Walked(Ok(()), [full])
    else
      match ReadDir(fs, full)
      case Err(e) => Walked(Err(e), [])
      case Ok(entries) =>
        Walked(Ok(()), Listed(full, entries, directory)
                       + WalkAll(fs, home, directory.subDirectories, full))
  }

  /** The lines printed by walking each of `directories` below `base` in
      order, every failure dropped. */
  function WalkAll(fs: FileSystem, home: Option<string>, directories: seq<Directory>, base: string): seq<string>
    decreases directories
  {
    if directories == [] then []
    else
      WalkAll(fs, home, directories[..|directories| - 1], base)
      + Walk(fs, home, directories[|directories| - 1], base).lines
  }

  /** One more sibling adds its own lines at the end. */
  lemma WalkAllSnoc(fs: FileSystem, home: Option<string>, ds: seq<Directory>, d: Directory, base: string)
    ensures WalkAll(fs, home, ds + [d], base) == WalkAll(fs, home, ds, base) + Walk(fs, home, d, base).lines
  {
    var s := ds + [d];
    assert s[..|s| - 1] == ds;
  }

  /** The same, for a prefix of a sequence one element longer. */
  lemma WalkAllStep(fs: FileSystem, home: Option<string>, subs: seq<Directory>, j: nat, base: string)
    requires j < |subs|
    ensures WalkAll(fs, home, subs[..j + 1], base) == WalkAll(fs, home, subs[..j], base) + Walk(fs, home, subs[j], base).lines
  {
    assert subs[..j + 1] == subs[..j] + [subs[j]];
    WalkAllSnoc(fs, home, subs[..j], subs[j], base);
  }

  /** One more entry adds its line, if it has one, at the end. */
  lemma ListedStep(root: string, entries: Listing, i: nat, directory: Directory)
    requires i < |entries|
    ensures Listed(root, entries[..i + 1], directory)
         == Listed(root, entries[..i], directory)
            + (if entries[i].Ok? && ShouldPrint(entries[i].value, directory)
               then [EntryPath(root, entries[i].value.name.value)] else [])
  {
    assert entries[..i + 1][..i] == entries[..i];
  }

  /** `walk_directory(directory, base)`: returns its outcome and the lines it
      prints. */
  method WalkDirectory(fs: FileSystem, home: Option<string>, directory: Directory, base: string)
    returns (outcome: Result<(), IoError>, lines: seq<string>)
    ensures Walked(outcome, lines) == Walk(fs, home, directory, base)
    decreases directory
  {
    var full := ExpandTilde(Join(base, directory.path), home);
    if directory.onlySelf {
      outcome, lines := Ok(()), [full];
    } else {
      var listing := ReadDir(fs, full);
      if listing.Err? {
        outcome, lines := Err(listing.error), [];
      } else {
        var listed := PrintEntries(full, listing.value, directory);
        var walked := WalkSubDirectories(fs, home, directory.subDirectories, full);
        outcome, lines := Ok(()), listed + walked;
      }
    }
  }

  /** The sub-directory loop of `walk_directory`: each declared
      sub-directory is walked below `base` in order and its outcome dropped. */
  method WalkSubDirectories(fs: FileSystem, home: Option<string>, subs: seq<Directory>, base: string)
    returns (lines: seq<string>)
    ensures lines == WalkAll(fs, home, subs, base)
    decreases subs
  {
    lines := [];
    for j := 0 to |subs|
      invariant lines == WalkAll(fs, home, subs[..j], base)
    {
      var _, printed := WalkDirectory(fs, home, subs[j], base);
      WalkAllStep(fs, home, subs, j, base);
      lines := lines + printed;
    }
    assert subs[..|subs|] == subs;
  }

  /** The entry loop of `walk_directory`: an entry that cannot be read is
      skipped, and every other one that passes the filter is printed. */
  method PrintEntries(root: string, entries: Listing, directory: Directory)
    returns (lines: seq<string>)
    ensures lines == Listed(root, entries, directory)
  {
    lines := [];
    for i := 0 to |entries|
      invariant lines == Listed(root, entries[..i], directory)
    {
      ListedStep(root, entries, i, directory);
      var entry := entries[i];
      if entry.Err? {
        assert lines + [] == lines;
        continue;
      }
      if ShouldPrint(entry.value, directory) {
        lines := lines + [EntryPath(root, entry.value.name.value)];
      } else {
        assert lines + [] == lines;
      }
    }
    assert entries[..|entries|] == entries;
  }

  /** `print_all_projects`: every top-level directory is walked below the
      empty path, in order, whatever the earlier ones did. */
  method PrintAllProjects(fs: FileSystem, home: Option<string>, directories: seq<Directory>)
    returns (lines: seq<string>)
    ensures lines == WalkAll(fs, home, directories, "")
  {
    lines := [];
    for k := 0 to |directories|
      invariant lines == WalkAll(fs, home, directories[..k], "")
    {
      var _, printed := WalkDirectory(fs, home, directories[k], "");
      WalkAllStep(fs, home, directories, k, "");
      lines := lines + printed;
    }
    assert directories[..|directories|] == directories;
  }

  /** Real directory entries carry plain names: never empty, never holding a
      separator. */
  predicate PlainNames(entries: Listing) {
    forall i :: 0 <= i < |entries| && entries[i].Ok? && entries[i].value.name.Some? ==>
      entries[i].value.name.value != [] && '/' !in entries[i].value.name.value
  }

  /** The entry loop over a listing in two parts prints what it prints for
      each part, in enumeration order. */
  lemma {:induction false} ListedAppend(root: string, a: Listing, b: Listing, directory: Directory)
    ensures Listed(root, a + b, directory) == Listed(root, a, directory) + Listed(root, b, directory)
    decreases |b|
  {
    if b == [] {
      assert a + b == a;
      assert Listed(root, a, directory) + [] == Listed(root, a, directory);
    } else {
      var init, last := b[..|b| - 1], b[|b| - 1];
      var line := if last.Ok? && ShouldPrint(last.value, directory)
                  then [EntryPath(root, last.value.name.value)] else [];
      calc {
        Listed(root, a + b, directory);
        { assert (a + b)[..|a + b| - 1] == a + init; assert (a + b)[|a + b| - 1] == last; }
        Listed(root, a + init, directory) + line;
        { ListedAppend(root, a, init, directory); }
        (Listed(root, a, directory) + Listed(root, init, directory)) + line;
        Listed(root, a, directory) + (Listed(root, init, directory) + line);
        Listed(root, a, directory) + Listed(root, b, directory);
      }
    }
  }

  /** An entry that cannot be read is skipped, and only that entry. */
  lemma ListedSkipsUnreadableEntry(root: string, before: Listing, e: IoError, after: Listing, directory: Directory)
    ensures Listed(root, before + [Err(e)] + after, directory) == Listed(root, before + after, directory)
  {
    var bad: Listing := [Err(e)];
    calc {
      Listed(root, before + bad + after, directory);
      { ListedAppend(root, before + bad, after, directory); }
      Listed(root, before + bad, directory) + Listed(root, after, directory);
      { assert (before + bad)[..|before + bad| - 1] == before; }
      Listed(root, before, directory) + Listed(root, after, directory);
      { ListedAppend(root, before, after, directory); }
      Listed(root, before + after, directory);
    }
  }

  /** The entry loop prints exactly the paths of the readable entries that
      pass the filter. */
  lemma {:induction false} ListedMembers(root: string, entries: Listing, directory: Directory, line: string)
    ensures line in Listed(root, entries, directory) <==>
      exists i :: 0 <= i < |entries| && entries[i].Ok? && ShouldPrint(entries[i].value, directory)
                  && line == EntryPath(root, entries[i].value.name.value)
    decreases |entries|
  {
    if entries != [] {
      var n := |entries| - 1;
      var init := entries[..n];
      ListedMembers(root, init, directory, line);
      if exists i :: 0 <= i < |init| && init[i].Ok? && ShouldPrint(init[i].value, directory)
                     && line == EntryPath(root, init[i].value.name.value) {
        var i :| 0 <= i < |init| && init[i].Ok? && ShouldPrint(init[i].value, directory)
                 && line == EntryPath(root, init[i].value.name.value);
        assert entries[i] == init[i];
      }
      if exists i :: 0 <= i < |entries| && entries[i].Ok? && ShouldPrint(entries[i].value, directory)
                     && line == EntryPath(root, entries[i].value.name.value) {
        var i :| 0 <= i < |entries| && entries[i].Ok? && ShouldPrint(entries[i].value, directory)
                 && line == EntryPath(root, entries[i].value.name.value);
        if i < n {
          assert init[i] == entries[i];
        }
      }
    }
  }

  /** The entry loop never prints an entry named like a declared
      sub-directory, even when the name is not excluded, and never one whose
      name is excluded: those are left to the sub-directory's own walk. */
  lemma NeverListedWhenDeclaredOrExcluded(root: string, entries: Listing, directory: Directory, name: string)
    requires PlainNames(entries)
    requires !IsAbsolute(name)
    requires IsDeclared(directory, name) || name in directory.exclude
    ensures EntryPath(root, name) !in Listed(root, entries, directory)
  {
    ListedMembers(root, entries, directory, EntryPath(root, name));
    forall i | 0 <= i < |entries| && entries[i].Ok? && ShouldPrint(entries[i].value, directory)
      ensures EntryPath(root, name) != EntryPath(root, entries[i].value.name.value)
    {
      var other := entries[i].value.name.value;
      if EntryPath(root, name) == EntryPath(root, other) {
        JoinInjective(root, name, other);
        assert false;
      }
    }
  }

  /** An `onlySelf` directory succeeds and prints exactly its resolved path,
      whatever the file system holds and whatever its exclusions and
      sub-directories are. */
  lemma WalkOnlySelf(fs: FileSystem, fs': FileSystem, home: Option<string>, directory: Directory,
                     other: Directory, base: string)
    requires directory.onlySelf && other.onlySelf && other.path == directory.path
    ensures Walk(fs, home, directory, base) == Walked(Ok(()), [ExpandTilde(Join(base, directory.path), home)])
    ensures Walk(fs', home, other, base) == Walk(fs, home, directory, base)
  {
  }

  /** A directory fails exactly when it is not `onlySelf` and cannot be
      listed; a failed directory prints nothing and none of its
      sub-directories is walked. */
  lemma WalkFailsIff(fs: FileSystem, home: Option<string>, directory: Directory, base: string)
    ensures Walk(fs, home, directory, base).outcome.Err?
        <==> !directory.onlySelf && ReadDir(fs, FullPath(base, directory, home)).Err?
    ensures Walk(fs, home, directory, base).outcome.Err? ==>
              Walk(fs, home, directory, base) == Walked(Err(ReadDir(fs, FullPath(base, directory, home)).error), [])
  {
  }

  /** Walking siblings in two groups prints what each group prints, in
      declared order. */
  lemma {:induction false} WalkAllAppend(fs: FileSystem, home: Option<string>, a: seq<Directory>,
                                         b: seq<Directory>, base: string)
    ensures WalkAll(fs, home, a + b, base) == WalkAll(fs, home, a, base) + WalkAll(fs, home, b, base)
    decreases |b|
  {
    if b == [] {
      assert a + b == a;
      assert WalkAll(fs, home, a, base) + [] == WalkAll(fs, home, a, base);
    } else {
      var init, last := b[..|b| - 1], b[|b| - 1];
      var lastLines := Walk(fs, home, last, base).lines;
      calc {
        WalkAll(fs, home, a + b, base);
        { assert a + b == (a + init) + [last]; WalkAllSnoc(fs, home, a + init, last, base); }
        WalkAll(fs, home, a + init, base) + lastLines;
        { WalkAllAppend(fs, home, a, init, base); }
        (WalkAll(fs, home, a, base) + WalkAll(fs, home, init, base)) + lastLines;
        WalkAll(fs, home, a, base) + (WalkAll(fs, home, init, base) + lastLines);
        { assert b == init + [last]; WalkAllSnoc(fs, home, init, last, base); }
        WalkAll(fs, home, a, base) + WalkAll(fs, home, b, base);
      }
    }
  }

  /** A listed directory succeeds whatever its sub-directories do, and prints
      its filtered entries first, then each declared sub-directory's lines in
      declared order, each walked below its own resolved path. */
  lemma WalkListedDirectory(fs: FileSystem, home: Option<string>, directory: Directory, base: string, k: nat)
    requires !directory.onlySelf && ReadDir(fs, FullPath(base, directory, home)).Ok?
    ensures var full := FullPath(base, directory, home);
      Walk(fs, home, directory, base).outcome == Ok(())
      && Walk(fs, home, directory, base).lines
         == Listed(full, ReadDir(fs, full).value, directory)
            + WalkAll(fs, home, directory.subDirectories, full)
    ensures var full := FullPath(base, directory, home);
      var subs := directory.subDirectories;
      k < |subs| ==>
        Walk(fs, home, directory, base).lines
        == Listed(full, ReadDir(fs, full).value, directory)
           + (WalkAll(fs, home, subs[..k], full)
              + Walk(fs, home, subs[k], full).lines
              + WalkAll(fs, home, subs[k + 1..], full))
  {
    var full := FullPath(base, directory, home);
    var subs := directory.subDirectories;
    if k < |subs| {
      assert WalkAll(fs, home, subs, full)
          == WalkAll(fs, home, subs[..k], full) + Walk(fs, home, subs[k], full).lines
             + WalkAll(fs, home, subs[k + 1..], full) by {
        assert subs == subs[..k + 1] + subs[k + 1..];
        WalkAllAppend(fs, home, subs[..k + 1], subs[k + 1..], full);
        WalkAllStep(fs, home, subs, k, full);
      }
    }
  }


  /** A branch that fails drops out: its later siblings print exactly what
      they would print without it. This holds at the top level too, where
      every configured directory is walked below the empty path. */
  lemma FailedBranchDropsOut(fs: FileSystem, home: Option<string>, before: seq<Directory>,
                             failed: Directory, after: seq<Directory>, base: string)
    requires Walk(fs, home, failed, base).outcome.Err?
    ensures WalkAll(fs, home, before + [failed] + after, base)
         == WalkAll(fs, home, before, base) + WalkAll(fs, home, after, base)
  {
    assert WalkAll(fs, home, before + [failed], base) == WalkAll(fs, home, before, base) by {
      WalkFailsIff(fs, home, failed, base);
      WalkAllSnoc(fs, home, before, failed, base);
      assert WalkAll(fs, home, before, base) + [] == WalkAll(fs, home, before, base);
    }
    WalkAllAppend(fs, home, before + [failed], after, base);
  }

  /** The entry loop on the listing of the small run below: only `a`
      passes the filter. */
  lemma ExampleListing(entries: Listing, root: Directory)
    requires |entries| == 5
    requires entries[0] == Ok(DirEntry(Some("a"), true)) && entries[1] == Ok(DirEntry(Some("nm"), true))
    requires entries[2] == Ok(DirEntry(Some("f"), false)) && entries[3] == Err(Other)
    requires entries[4] == Ok(DirEntry(Some("special"), true))
    requires root.exclude == ["nm"] && |root.subDirectories| == 1
    requires root.subDirectories[0].path == "special"
    ensures Listed("/r", entries, root) == ["/r/a"]
  {
    assert IsDeclared(root, "special") by {
      assert root.subDirectories[0].path == "special";
    }
    assert Listed("/r", entries[..1], root) == ["/r/a"] by {
      ListedStep("/r", entries, 0, root);
      assert entries[..0] == [];
      assert Join("/r", "a") == "/r/a";
    }
    assert Listed("/r", entries[..2], root) == ["/r/a"] by {
      ListedStep("/r", entries, 1, root);
    }
    assert Listed("/r", entries[..3], root) == ["/r/a"] by {
      ListedStep("/r", entries, 2, root);
    }
    assert Listed("/r", entries[..4], root) == ["/r/a"] by {
      ListedStep("/r", entries, 3, root);
    }
    assert Listed("/r", entries[..5], root) == ["/r/a"] by {
      ListedStep("/r", entries, 4, root);
    }
    assert entries[..5] == entries;
  }

  /** A small run: an unlistable first directory is dropped; the second
      prints its one plain sub-directory, skipping the excluded one, the
      plain file, the unreadable entry and the declared one in its listing,
      and then prints the declared `onlySelf` sub-directory through its own
      walk. */
  lemma ExampleRun(fs: FileSystem, entries: Listing, missing: Directory, root: Directory)
    requires entries == [Ok(DirEntry(Some("a"), true)), Ok(DirEntry(Some("nm"), true)),
                         Ok(DirEntry(Some("f"), false)), Err(Other),
                         Ok(DirEntry(Some("special"), true))]
    requires fs == map["/r" := Ok(entries)]
    requires missing == Directory("/x", false, [], [])
    requires root == Directory("/r", false, ["nm"], [Directory("special", true, [], [])])
    ensures WalkAll(fs, None, [missing, root], "") == ["/r/a", "/r/special"]
  {
    var special := root.subDirectories[0];
    assert Walk(fs, None, missing, "").lines == [] by {
      assert FullPath("", missing, None) == "/x";
      assert "/x" != "/r";
    }
    assert WalkAll(fs, None, [special], "/r") == ["/r/special"] by {
      assert [special][..0] == [];
      assert Join("/r", "special") == "/r/special";
    }
    assert Walk(fs, None, root, "").lines == ["/r/a", "/r/special"] by {
      assert FullPath("", root, None) == "/r";
      assert root.subDirectories == [special];
      ExampleListing(entries, root);
    }
    assert WalkAll(fs, None, [missing], "") == [] by {
      assert [missing][..0] == [];
    }
    assert [missing, root][..1] == [missing];
  }
}
