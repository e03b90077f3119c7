# findproject: a verified model of the project-directory walker

`findproject` reads a YAML configuration that describes a tree of
directories. It prints the path of every project directory the tree
describes, one per line. A configured directory is handled in one of two ways:

- With `only_self` set, the directory is itself a project, and its own path
  is printed.
- Otherwise it is listed. Each entry that is a directory is printed unless
  its name is excluded or is the path of a declared sub-directory. The
  declared sub-directories are then walked in order, each below the parent's
  resolved path, with their own settings.

Each configured path is resolved by joining it onto its parent's path and
then replacing every `~` with `$HOME`. The configuration file lives at
`$XDG_CONFIG_HOME/findproject/config.yaml`, or at
`~/.config/findproject/config.yaml` when that variable is unset.

The model is organised as follows:

- `wrappers.dfy` defines `Option` and `Result`.
- `config.dfy` defines the configuration tree (`Directory`,
  `FindprojectConfig`).
- `fs.dfy` holds the file system as the walk sees it. It is an immutable map
  from a path to the outcome of listing that path. Each entry carries its
  name (`None` when the name is not valid text), its is-directory flag, or a
  read error.
- `paths.dfy` covers path joining, tilde expansion and the configuration path.
  `Join` follows `Path::join` on Unix:
  - an absolute segment replaces the base;
  - an empty base gives the segment;
  - otherwise a `/` is inserted unless the base already ends in one.
- `walker.dfy` covers the entry filter and the walk itself:
  - `Walk` and `WalkAll` are specification functions: what a directory, or a
    run of sibling directories, prints, and whether it fails.
  - `WalkDirectory`, `PrintEntries`, `WalkSubDirectories` and
    `PrintAllProjects` are the source's loops. Each returns the lines it
    prints, in order, and its caller appends them after its own earlier
    output. Each is proved equal to the specification function.

Environment variables are parameters: `HOME` and `XDG_CONFIG_HOME` are
`Option<string>`, and `None` stands for unset or not valid text.

## Model

| member | source | states |
|---|---|---|
| Paths.Join | src/main.rs:77 | `Path::join`: an absolute segment replaces the base, and an empty base yields the segment |
| Paths.JoinShape | src/main.rs:77 | the joined path ends with the segment; a relative segment gives `base + segment` or `base + "/" + segment`, the latter exactly when the base is non-empty and does not end in `/` |
| Paths.JoinInjective | src/main.rs:101 | two relative names joined onto the same directory give the same entry path only if the names are equal |
| Paths.ExpandTilde | src/main.rs:60-67 | `expand_tilde` with `HOME` as a parameter: unset leaves the string alone, set replaces every `~`; it carries no contract of its own, and `ExpandTildeIdentity`, `ExpandTildeReplacesEveryMarker` and `ExpandTildeIdempotent` state its properties |
| Paths.ExpandTildeIdentity | src/main.rs:60-67 | with `HOME` unset, or with no `~` in the string, expansion returns the string unchanged |
| Paths.ExpandTildeReplacesEveryMarker | src/main.rs:64 | with `HOME = h`, expansion equals splitting at `~` and joining with `h`; the length grows by `\|h\| - 1` per `~`; no `~` survives if `h` has none |
| Paths.SplitJoinRoundTrip | src/main.rs:64 | splitting at `~` and joining with `~` gives the string back, so the split/join reference loses nothing |
| Paths.SplitAtMarkersPieces | src/main.rs:64 | a string with `k` markers splits into `k + 1` pieces, none holding a marker |
| Paths.ExpandTildeIdempotent | src/main.rs:60-67 | expanding twice equals expanding once when `HOME` holds no `~` |
| Paths.DefaultConfigPath | src/main.rs:12-27 | the default path ends with `findproject/config.yaml`; it is `~/.config/findproject/config.yaml` when `XDG_CONFIG_HOME` is unset, and `$XDG_CONFIG_HOME/findproject/config.yaml` when that is set, non-empty and has no trailing `/`; a value ending in `/` gets the subpath appended with no extra separator; an empty value leaves the relative `findproject/config.yaml` |
| Paths.ConfigPath | src/main.rs:52-53 | the path `main` reads: the `--config` argument, or the default path, with `~` expanded; it carries no contract of its own, and `ConfigPathUnderHome` and `ConfigPathFromXdg` state its properties |
| Paths.ConfigPathUnderHome | src/main.rs:52-53 | with no `--config` and no `XDG_CONFIG_HOME`, the configuration is read from `$HOME/.config/findproject/config.yaml` |
| Paths.ConfigPathFromXdg | src/main.rs:52-53 | with no `--config`, a `~`-free `XDG_CONFIG_HOME` is used as given, whatever `HOME` is: the configuration path is the default path built from it, which is `$XDG_CONFIG_HOME/findproject/config.yaml` for a non-empty value without a trailing `/` |
| Fs.ReadDir | src/main.rs:92 | `fs::read_dir` on the abstract file system: the recorded outcome for a known path, `NotFound` otherwise; `WalkFailsIff` states how the walk uses it |
| Fs.EntryPath | src/main.rs:101 | `DirEntry::path()`: the listed directory joined with the entry's name; `JoinShape` and `JoinInjective` state the properties of that join |
| Walker.FullPath | src/main.rs:77-78 | a node's resolved path: joined onto the parent's path, then `~`-expanded; `WalkOnlySelf`, `WalkFailsIff` and `WalkListedDirectory` state how the walk uses it |
| Walker.FindByPath | src/main.rs:120-124 | `find` returns nothing exactly when no declared sub-directory has that path; otherwise it returns the first declared sub-directory with that path |
| Walker.ShouldPrint | src/main.rs:112-125 | an entry is printed iff its name is valid text, it is a directory, its name is not excluded, and no declared sub-directory has it as path |
| Walker.PrintEntries | src/main.rs:94-103 | the entry loop prints exactly `Listed`: the paths of the readable entries that pass the filter, in enumeration order |
| Walker.ListedMembers | src/main.rs:94-103 | a line is printed by the entry loop iff some readable entry passes the filter and has that line as its path |
| Walker.ListedAppend | src/main.rs:94-103 | the entry loop over a split listing prints the first part's lines and then the second part's |
| Walker.ListedSkipsUnreadableEntry | src/main.rs:95-98 | an entry that cannot be read is skipped, and the rest of the listing prints as if it were absent |
| Walker.NeverListedWhenDeclaredOrExcluded | src/main.rs:119-124 | an entry named like a declared sub-directory, or an excluded one, is never printed by the listing, even when the name is not excluded |
| Walker.WalkDirectory | src/main.rs:76-110 | `walk_directory` returns the outcome and prints the lines that `Walk` specifies |
| Walker.WalkSubDirectories | src/main.rs:105-107 | the sub-directory loop prints each declared sub-directory's lines in declared order, below the parent's resolved path, with failures ignored |
| Walker.PrintAllProjects | src/main.rs:69-74 | `print_all_projects` prints what walking every top-level directory below the empty path prints, in order |
| Walker.WalkOnlySelf | src/main.rs:77-90 | an `only_self` directory succeeds and prints exactly its resolved path, whatever the file system, its exclusions and its sub-directories are |
| Walker.WalkFailsIff | src/main.rs:87-92 | a directory fails exactly when it is not `only_self` and its resolved path cannot be listed; it then prints nothing |
| Walker.WalkAllAppend | src/main.rs:105-107 | walking siblings in two groups prints the first group's lines and then the second's |
| Walker.WalkListedDirectory | src/main.rs:92-109 | a listed directory succeeds whatever its children do, with or without declared sub-directories, and prints its filtered entries, then each sub-directory's lines in declared order, resolved against its own path; for any sub-directory `k`, its lines sit between those of its earlier and later siblings |
| Walker.FailedBranchDropsOut | src/main.rs:69-74 | a failing directory, nested or top-level, prints nothing and leaves its later siblings' output unchanged |
| Walker.ExampleListing | src/main.rs:112-125 | in a listing of `a`, excluded `nm`, file `f`, an unreadable entry and declared `special`, only `/r/a` is printed |
| Walker.ExampleRun | src/main.rs:69-110 | an unlistable `/x` is dropped and `/r` prints `/r/a` and then its `only_self` sub-directory `/r/special` |

## Left out

- Reading and parsing the configuration (`fs::read_to_string` and `serde_yaml`
  in `main`) and command-line parsing with clap. Only the resulting
  configuration path is modelled, as `ConfigPath`. The YAML parser and clap
  are foreign code; a read or parse failure only aborts the run.
- Printing with `println!`. The model returns the printed lines as a
  sequence instead.
- Environment reads. `HOME` and `XDG_CONFIG_HOME` are parameters.
- The real file system. `read_dir` is a lookup in an immutable map whose
  keys are exact strings. Path normalisation, symbolic links, and changes to
  the file system during the walk are not modelled. The is-directory check
  of an entry's path is a flag carried by the entry.
- The `to_str()` fallbacks at src/main.rs:23-26 and src/main.rs:77-84: the
  literal default path and the `InvalidData` error. Both joined operands
  are valid text, so the joined path always converts and neither branch can
  be taken. They are not modelled.
- Byte-level path encodings. A name that is not valid text is `None`.
- The error value of a failed walk is the listing's `IoError`, not a boxed
  `dyn Error`. Every caller discards it.
