/** Slash-separated folder paths: the string helpers the folder tree leans on. */
module Paths {

  const SLASH: char := '/'

  /** `strings.Trim(s, "/")`: every leading and trailing slash removed. */
  function Trim(s: string): string {
    TrimRight(TrimLeft(s))
  }

  function TrimLeft(s: string): string {
    if s != "" && s[0] == SLASH then TrimLeft(s[1..]) else s
  }

  function TrimRight(s: string): string {
    if s != "" && s[|s| - 1] == SLASH then TrimRight(s[..|s| - 1]) else s
  }

  /** `strings.Split(s, "/")`; the empty string splits into one empty part. */
  function Split(s: string): (parts: seq<string>)
    ensures |parts| > 0
  {
    if s == "" then [""]
    else if s[0] == SLASH then [""] + Split(s[1..])
    else
      var parts := Split(s[1..]);
      [[s[0]] + parts[0]] + parts[1..]
  }

  /** The hierarchy a caller derives from a path string. */
  function Hierarchy(s: string): seq<string> {
    Split(Trim(s))
  }

  /** The string built by repeatedly appending "/" and a folder name. */
  function PathString(path: seq<string>): string {
    if path == [] then "" else [SLASH] + path[0] + PathString(path[1..])
  }

  function Join(path: seq<string>): string
    requires path != []
  {
    path[0] + PathString(path[1..])
  }

  predicate SlashFree(path: seq<string>) {
    forall i :: 0 <= i < |path| ==> SLASH !in path[i]
  }

  /** A caller can check this on the names before building a path string from them. */
  predicate Rereadable(path: seq<string>) {
    && path != []
    && SlashFree(path)
    && (path == [""] || (path[0] != "" && path[|path| - 1] != ""))
  }

  lemma {:induction false} PathStringSnoc(path: seq<string>, name: string)
    ensures PathString(path + [name]) == PathString(path) + [SLASH] + name
  {
    if path == [] {
      assert PathString([name][1..]) == "";
      assert path + [name] == [name];
    } else {
      PathStringSnoc(path[1..], name);
      assert (path + [name])[1..] == path[1..] + [name];
    }
  }

  lemma {:induction false} SplitPart(part: string, tail: string)
    requires SLASH !in part
    ensures Split(part + [SLASH] + tail) == [part] + Split(tail)
    ensures Split(part) == [part]
  {
    var s := part + [SLASH] + tail;
    if part == "" {
      assert s[1..] == tail;
    } else {
      SplitPart(part[1..], tail);
      assert s[1..] == part[1..] + [SLASH] + tail;
      assert [part[0]] + part[1..] == part;
    }
  }

  lemma JoinHead(path: seq<string>)
    requires |path| > 1
    ensures Join(path) == path[0] + [SLASH] + Join(path[1..])
  {
    var tail := path[1..];
    assert PathString(tail) == [SLASH] + tail[0] + PathString(tail[1..]);
  }

  lemma {:induction false} SplitJoin(path: seq<string>)
    requires path != [] && SlashFree(path)
    ensures Split(Join(path)) == path
  {
    if |path| == 1 {
      SplitPart(path[0], "");
      assert path == [path[0]] && Join(path) == path[0];
    } else {
      var tail := path[1..];
      SplitJoin(tail);
      SplitPart(path[0], Join(tail));
      JoinHead(path);
      assert path == [path[0]] + tail;
    }
  }

  lemma JoinEmptyFirst(parts: seq<string>)
    requires parts != []
    ensures Join([""] + parts) == [SLASH] + Join(parts)
  {
    assert ([""] + parts)[1..] == parts;
    assert "" + PathString(parts) == PathString(parts) == [SLASH] + parts[0] + PathString(parts[1..]);
  }

  lemma JoinLonger(c: char, parts: seq<string>)
    requires parts != []
    ensures Join([[c] + parts[0]] + parts[1..]) == [c] + Join(parts)
  {
    assert ([[c] + parts[0]] + parts[1..])[1..] == parts[1..];
  }

  /** Joining undoes splitting. */
  lemma {:induction false} JoinSplit(s: string)
    ensures Join(Split(s)) == s
  {
    if s != "" {
      JoinSplit(s[1..]);
      JoinEmptyFirst(Split(s[1..]));
      JoinLonger(s[0], Split(s[1..]));
    }
  }

  lemma {:induction false} SplitIsSlashFree(s: string)
    ensures SlashFree(Split(s))
  {
    if s != "" {
      SplitIsSlashFree(s[1..]);
    }
  }

  lemma {:induction false} TrimLeftEnds(s: string)
    ensures var t := TrimLeft(s); t == "" || t[0] != SLASH
  {
    if s != "" && s[0] == SLASH {
      TrimLeftEnds(s[1..]);
    }
  }

  lemma {:induction false} TrimRightEnds(s: string)
    ensures var t := TrimRight(s); t <= s && (t == "" || t[|t| - 1] != SLASH)
  {
    if s != "" && s[|s| - 1] == SLASH {
      TrimRightEnds(s[..|s| - 1]);
    }
  }

  lemma TrimEnds(s: string)
    ensures var t := Trim(s); t == "" || (t[0] != SLASH && t[|t| - 1] != SLASH)
  {
    TrimLeftEnds(s);
    TrimRightEnds(TrimLeft(s));
  }

  /** An outer part of a split is empty only at an outer slash. */
  lemma {:induction false} SplitOuterParts(s: string)
    ensures Split(s)[0] == "" ==> s == "" || s[0] == SLASH
    ensures var parts := Split(s);
            parts[|parts| - 1] == "" ==> s == "" || s[|s| - 1] == SLASH
  {
    if s != "" {
      SplitOuterParts(s[1..]);
      var parts, tail := Split(s), Split(s[1..]);
      if s[0] == SLASH {
        assert parts == [""] + tail;
      } else if |tail| > 1 {
        assert parts[|parts| - 1] == tail[|tail| - 1];
      }
    }
  }

  lemma {:induction false} PathStringLast(path: seq<string>)
    requires path != []
    ensures var s := PathString(path); var last := path[|path| - 1];
            |s| >= |last| + 1 && s[|s| - |last|..] == last && s[|s| - |last| - 1] == SLASH
  {
    var last := path[|path| - 1];
    assert path == path[..|path| - 1] + [last];
    PathStringSnoc(path[..|path| - 1], last);
  }

  lemma RereadablePath(path: seq<string>)
    requires Rereadable(path)
    ensures Hierarchy(PathString(path)) == path
  {
    var s, j := PathString(path), Join(path);
    assert s == [SLASH] + j && s[1..] == j;
    SplitJoin(path);
    if path == [""] {
      assert s == "/" && s[1..] == "";
      assert TrimLeft(s) == TrimLeft("") == "" && Trim(s) == "";
    } else {
      assert path[0] in [path[0]] && j[0] == path[0][0] && j[0] in path[0];
      assert TrimLeft(s) == j;
      PathStringLast(path);
      var last := path[|path| - 1];
      assert s[|s| - 1] == s[|s| - |last|..][|last| - 1];
      assert j[|j| - 1] == last[|last| - 1] && last[|last| - 1] in last;
      assert TrimRight(j) == j;
    }
  }

  lemma HierarchyIsRereadable(s: string)
    ensures Rereadable(Hierarchy(s))
  {
    var t := Trim(s);
    SplitIsSlashFree(t);
    TrimEnds(s);
    SplitOuterParts(t);
    var path := Split(t);
    if path[0] == "" || path[|path| - 1] == "" {
      assert t == "";
    }
  }

  /** Exactly the paths whose string form reads back as themselves. */
  lemma HierarchyOfPathString(path: seq<string>)
    ensures Hierarchy(PathString(path)) == path <==> Rereadable(path)
  {
    if Rereadable(path) {
      RereadablePath(path);
    }
    HierarchyIsRereadable(PathString(path));
  }
}
