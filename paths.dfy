/** Path resolution: joining a segment onto a base path the way the Rust
    standard library's `Path::join` does on Unix, expanding the home-directory
    marker `~`, and locating the configuration file. */
module Paths {
  import opened Wrappers

  /** The home-directory marker that tilde expansion rewrites. */
  const Marker: char := '~'

  /** The configuration file below the configuration base directory. */
  const ConfigSubpath: string := "findproject/config.yaml"

  /** The configuration base directory used when `XDG_CONFIG_HOME` is unset. */
  const DefaultConfigHome: string := "~/.config"

  /** A Unix path is absolute when it starts at the root. */
  predicate IsAbsolute(p: string) {
    |p| > 0 && p[0] == '/'
  }

  /** `Path::new(base).join(segment)`: an absolute segment replaces the base;
      otherwise a separator is inserted unless the base is empty or already
      ends in one. */
  function Join(base: string, segment: string): (r: string)
    ensures IsAbsolute(segment) ==> r == segment
    ensures base == [] ==> r == segment
  {
    if IsAbsolute(segment) then segment
    else if base == [] || base[|base| - 1] == '/' then base + segment
    else base + "/" + segment
  }

  /** The joined path always ends with the segment. A relative segment is
      placed right after the base, with a separator in between exactly when
      the base is non-empty and does not already end in one. */
  lemma JoinShape(base: string, segment: string)
    ensures var r := Join(base, segment);
      |segment| <= |r| && r[|r| - |segment|..] == segment
      && (!IsAbsolute(segment) ==>
            (r == base + segment || r == base + "/" + segment)
            && (r == base + "/" + segment <==> base != [] && base[|base| - 1] != '/'))
  {
    var r := Join(base, segment);
    if !IsAbsolute(segment) && (base == [] || base[|base| - 1] == '/') {
      assert |r| == |base| + |segment| < |base + "/" + segment|;
    }
  }

  /** Two relative segments joined onto the same base give the same path only
      when they are the same segment. */
  lemma JoinInjective(base: string, a: string, b: string)
    requires !IsAbsolute(a) && !IsAbsolute(b)
    requires Join(base, a) == Join(base, b)
    ensures a == b
  {
    var ra := Join(base, a);
    if base == [] || base[|base| - 1] == '/' {
      assert a == ra[|base|..];
    } else {
      assert a == ra[|base| + 1..];
    }
  }

  /** `str::replace("~", home)`, one character at a time from the front. */
  function ReplaceMarker(s: string, home: string): (r: string)
  {
    if s == [] then []
    else (if s[0] == Marker then home else [s[0]]) + ReplaceMarker(s[1..], home)
  }

  /** How many markers `s` holds. */
  function MarkerCount(s: string): nat
  {
    if s == [] then 0
    else (if s[0] == Marker then 1 else 0) + MarkerCount(s[1..])
  }

  /** `s.split('~')`: the pieces between markers, in order. */
  function SplitAtMarkers(s: string): (parts: seq<string>)
    ensures |parts| >= 1
  {
    if s == [] then [[]]
    else
      var rest := SplitAtMarkers(s[1..]);
      if s[0] == Marker then [[]] + rest
      else [[s[0]] + rest[0]] + rest[1..]
  }

  /** `parts.join(sep)`: the pieces in order with `sep` between neighbours. */
  function JoinWith(parts: seq<string>, sep: string): string
    requires |parts| >= 1
  {
    if |parts| == 1 then parts[0]
    else parts[0] + sep + JoinWith(parts[1..], sep)
  }

  /** A string with `k` markers splits into `k + 1` marker-free pieces. */
  lemma {:induction false} SplitAtMarkersPieces(s: string)
    ensures |SplitAtMarkers(s)| == MarkerCount(s) + 1
    ensures forall i :: 0 <= i < |SplitAtMarkers(s)| ==> Marker !in SplitAtMarkers(s)[i]
  {
    if s != [] {
      SplitAtMarkersPieces(s[1..]);
      var rest := SplitAtMarkers(s[1..]);
      var parts := SplitAtMarkers(s);
      if s[0] == Marker {
        assert parts == [[]] + rest;
        assert forall i :: 1 <= i < |parts| ==> parts[i] == rest[i - 1];
      } else {
        assert parts == [[s[0]] + rest[0]] + rest[1..];
        assert forall i :: 1 <= i < |parts| ==> parts[i] == rest[i];
      }
    }
  }

  /** Joining a first piece onto a non-empty tail. */
  lemma JoinWithCons(head: string, tail: seq<string>, sep: string)
    requires |tail| >= 1
    ensures JoinWith([head] + tail, sep) == head + sep + JoinWith(tail, sep)
  {
    assert ([head] + tail)[1..] == tail;
  }

  /** Extending the first piece extends the joined string in front. */
  lemma JoinWithExtendFirst(c: char, parts: seq<string>, sep: string)
    requires |parts| >= 1
    ensures JoinWith([[c] + parts[0]] + parts[1..], sep) == [c] + JoinWith(parts, sep)
  {
    var q := [[c] + parts[0]] + parts[1..];
    if |parts| > 1 {
      assert q[1..] == parts[1..];
      calc {
        JoinWith(q, sep);
        ([c] + parts[0]) + sep + JoinWith(parts[1..], sep);
        [c] + (parts[0] + sep + JoinWith(parts[1..], sep));
        [c] + JoinWith(parts, sep);
      }
    }
  }

  /** Replacing every marker is the same as cutting the string at its markers
      and putting `home` into every cut. */
  lemma {:induction false} ReplaceMarkerIsSplitJoin(s: string, home: string)
    ensures ReplaceMarker(s, home) == JoinWith(SplitAtMarkers(s), home)
  {
    if s != [] {
      ReplaceMarkerIsSplitJoin(s[1..], home);
      var rest := SplitAtMarkers(s[1..]);
      if s[0] == Marker {
        JoinWithCons([], rest, home);
        assert [] + home + JoinWith(rest, home) == home + JoinWith(rest, home);
      } else {
        JoinWithExtendFirst(s[0], rest, home);
      }
    }
  }

  /** A string without the marker is left as it is. */
  lemma {:induction false} ReplaceMarkerUnmarked(s: string, home: string)
    requires Marker !in s
    ensures ReplaceMarker(s, home) == s
  {
    if s != [] {
      assert s[0] != Marker;
      ReplaceMarkerUnmarked(s[1..], home);
    }
  }

  /** Each marker grows the string by `|home| - 1` characters. */
  lemma {:induction false} ReplaceMarkerLength(s: string, home: string)
    ensures |ReplaceMarker(s, home)| == |s| + MarkerCount(s) * (|home| - 1)
  {
    if s != [] {
      ReplaceMarkerLength(s[1..], home);
      var k := MarkerCount(s[1..]);
      if s[0] == Marker {
        assert (k + 1) * (|home| - 1) == k * (|home| - 1) + (|home| - 1);
      }
    }
  }

  /** When `home` holds no marker, none survives the replacement. */
  lemma {:induction false} ReplaceMarkerRemovesAll(s: string, home: string)
    ensures Marker !in home ==> Marker !in ReplaceMarker(s, home)
  {
    if s != [] {
      ReplaceMarkerRemovesAll(s[1..], home);
    }
  }

  /** Replacing the marker by itself changes nothing, so cutting at the
      markers and joining back with the marker gives the string back. */
  lemma {:induction false} SplitJoinRoundTrip(s: string)
    ensures JoinWith(SplitAtMarkers(s), [Marker]) == s
  {
    ReplaceMarkerSelf(s);
    ReplaceMarkerIsSplitJoin(s, [Marker]);
  }

  lemma {:induction false} ReplaceMarkerSelf(s: string)
    ensures ReplaceMarker(s, [Marker]) == s
  {
    if s != [] {
      ReplaceMarkerSelf(s[1..]);
      assert s == [s[0]] + s[1..];
    }
  }

  /** `expand_tilde`: with `HOME` set, every marker becomes its value; with
      `HOME` unset (or not valid text) the string comes back unchanged. */
  function ExpandTilde(s: string, home: Option<string>): string
  {
    match home
    case None => s
    case Some(h) => ReplaceMarker(s, h)
  }

  /** Expansion leaves the string alone when `HOME` is unset, and also when
      the string has no marker, whatever `HOME` is. */
  lemma ExpandTildeIdentity(s: string, home: Option<string>)
    ensures home.None? || Marker !in s ==> ExpandTilde(s, home) == s
  {
    if home.Some? && Marker !in s {
      ReplaceMarkerUnmarked(s, home.value);
    }
  }

  /** With `HOME` set, expansion is `s.split('~').join(home)`: every marker,
      and nothing else, is replaced by the value of `HOME`. */
  lemma ExpandTildeReplacesEveryMarker(s: string, home: string)
    ensures ExpandTilde(s, Some(home)) == JoinWith(SplitAtMarkers(s), home)
    ensures |ExpandTilde(s, Some(home))| == |s| + MarkerCount(s) * (|home| - 1)
    ensures Marker !in home ==> Marker !in ExpandTilde(s, Some(home))
  {
    ReplaceMarkerIsSplitJoin(s, home);
    ReplaceMarkerLength(s, home);
    ReplaceMarkerRemovesAll(s, home);
  }

  /** Expanding twice is expanding once, provided `HOME` brings no marker in. */
  lemma ExpandTildeIdempotent(s: string, home: Option<string>)
    requires home.Some? ==> Marker !in home.value
    ensures ExpandTilde(ExpandTilde(s, home), home) == ExpandTilde(s, home)
  {
    if home.Some? {
      ReplaceMarkerRemovesAll(s, home.value);
    }
    ExpandTildeIdentity(ExpandTilde(s, home), home);
  }

  /** `get_default_config_path`: `$XDG_CONFIG_HOME/findproject/config.yaml`,
      or `~/.config/findproject/config.yaml` when the variable is unset. */
  function DefaultConfigPath(xdgConfigHome: Option<string>): (r: string)
    ensures |ConfigSubpath| <= |r| && r[|r| - |ConfigSubpath|..] == ConfigSubpath
    ensures xdgConfigHome.None? ==> r == DefaultConfigHome + "/" + ConfigSubpath
    ensures xdgConfigHome == Some("") ==> r == ConfigSubpath
    ensures xdgConfigHome.Some? && xdgConfigHome.value != []
              && xdgConfigHome.value[|xdgConfigHome.value| - 1] != '/'
            ==> r == xdgConfigHome.value + "/" + ConfigSubpath
    ensures xdgConfigHome.Some? && xdgConfigHome.value != []
              && xdgConfigHome.value[|xdgConfigHome.value| - 1] == '/'
            ==> r == xdgConfigHome.value + ConfigSubpath
  {
    var base := xdgConfigHome.GetOr(DefaultConfigHome);
    assert !IsAbsolute(ConfigSubpath);
    assert DefaultConfigHome[|DefaultConfigHome| - 1] == 'g';
    Join(base, ConfigSubpath)
  }

  /** The path `main` reads the configuration from: the `--config` argument if
      given, else the default, with the marker expanded. */
  function ConfigPath(configArg: Option<string>, xdgConfigHome: Option<string>, home: Option<string>): string
  {
    ExpandTilde(configArg.GetOr(DefaultConfigPath(xdgConfigHome)), home)
  }

  /** With nothing configured, the configuration lives in `.config` under the
      home directory. */
  lemma ConfigPathUnderHome(home: string)
    ensures ConfigPath(None, None, Some(home)) == home + "/.config" + "/" + ConfigSubpath
  {
    var rest := "/.config" + "/" + ConfigSubpath;
    assert Marker !in rest;
    assert DefaultConfigPath(None) == [Marker] + rest;
    ExpandLeadingMarker(rest, home);
  }

  /** A marker at the front of an otherwise marker-free path becomes `home`. */
  lemma ExpandLeadingMarker(rest: string, home: string)
    requires Marker !in rest
    ensures ExpandTilde([Marker] + rest, Some(home)) == home + rest
  {
    ReplaceMarkerUnmarked(rest, home);
    assert ([Marker] + rest)[1..] == rest;
  }

  /** A marker-free `XDG_CONFIG_HOME` is used as given, whatever `HOME` is:
      the configuration path is the default path built from it, which for a
      non-empty value without a trailing separator is
      `$XDG_CONFIG_HOME/findproject/config.yaml`. */
  lemma ConfigPathFromXdg(xdg: string, home: Option<string>)
    requires Marker !in xdg
    ensures ConfigPath(None, Some(xdg), home) == DefaultConfigPath(Some(xdg))
    ensures xdg != [] && xdg[|xdg| - 1] != '/' ==>
              ConfigPath(None, Some(xdg), home) == xdg + "/" + ConfigSubpath
  {
    var path := DefaultConfigPath(Some(xdg));
    assert Marker !in ConfigSubpath;
    JoinShape(xdg, ConfigSubpath);
    assert Marker !in path;
    ExpandTildeIdentity(path, home);
  }
}
