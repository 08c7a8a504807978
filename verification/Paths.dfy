/**
 Path strings: normalizePath, splitPath and pathIsDescendant
 (src/filesystem_adapter.cpp).
 */
module Paths {

  /** The nonempty pieces between slashes; `cur` is the piece being read. */
  function PartsFrom(s: string, cur: string): seq<string>
    decreases |s|
  {
    if s == "" then Piece(cur)
    else if s[0] == '/' then Piece(cur) + PartsFrom(s[1..], "")
    else PartsFrom(s[1..], cur + [s[0]])
  }

  function Piece(cur: string): seq<string> { if cur == "" then [] else [cur] }

  function Parts(s: string): seq<string> { PartsFrom(s, "") }

  /** One component applied to a directory path: "." stays, ".." goes up, anything else goes down. */
  function Step(dir: seq<string>, part: string): seq<string> {
    if part == "" || part == "." then dir
    else if part == ".." then (if dir == [] then dir else dir[..|dir| - 1])
    else dir + [part]
  }

  function Walk(dir: seq<string>, parts: seq<string>): seq<string>
    decreases |parts|
  {
    if parts == [] then dir else Walk(Step(dir, parts[0]), parts[1..])
  }

  function Slashed(parts: seq<string>): string {
    if parts == [] then "" else Slashed(parts[..|parts| - 1]) + "/" + parts[|parts| - 1]
  }

  function Join(parts: seq<string>): string { if parts == [] then "/" else Slashed(parts) }

  /** The string normalizePath splits. */
  function Combined(base: string, path: string): string {
    if path == "" then (if base == "" then "/" else base)
    else if path[0] == '/' then path
    else if base == "" || base == "/" then "/" + path
    else base + "/" + path
  }

  function Normalize(base: string, path: string): string { Join(Walk([], Parts(Combined(base, path)))) }

  predicate IsDescendant(parent: string, candidate: string) {
    parent != "/" && |candidate| > |parent| && candidate[..|parent|] == parent && candidate[|parent|] == '/'
  }

  // ---------------------------------------------------------------------
  // Components
  // ---------------------------------------------------------------------

  predicate Clean(part: string) { part != "" && '/' !in part }

  predicate AllClean(parts: seq<string>) { forall k :: 0 <= k < |parts| ==> Clean(parts[k]) }

  /** No component is empty, "." or "..", and none contains a slash. */
  predicate Normal(parts: seq<string>) {
    AllClean(parts) && forall k :: 0 <= k < |parts| ==> parts[k] != "." && parts[k] != ".."
  }

  lemma {:induction false} PartsClean(s: string, cur: string)
    requires '/' !in cur
    ensures AllClean(PartsFrom(s, cur))
    decreases |s|
  {
    if s != "" {
      if s[0] == '/' { PartsClean(s[1..], ""); } else { PartsClean(s[1..], cur + [s[0]]); }
    }
  }

  lemma {:induction false} WalkNormal(dir: seq<string>, parts: seq<string>)
    requires Normal(dir) && AllClean(parts)
    ensures Normal(Walk(dir, parts))
    decreases |parts|
  {
    if parts != [] { WalkNormal(Step(dir, parts[0]), parts[1..]); }
  }

  lemma {:induction false} WalkConcat(dir: seq<string>, a: seq<string>, b: seq<string>)
    ensures Walk(dir, a + b) == Walk(Walk(dir, a), b)
    decreases |a|
  {
    if a == [] {
      assert a + b == b;
    } else {
      assert (a + b)[1..] == a[1..] + b;
      WalkConcat(Step(dir, a[0]), a[1..], b);
    }
  }

  /** Walking down normal components appends them. */
  lemma {:induction false} WalkDown(dir: seq<string>, parts: seq<string>)
    requires Normal(parts)
    ensures Walk(dir, parts) == dir + parts
    decreases |parts|
  {
    if parts != [] {
      WalkDown(dir + [parts[0]], parts[1..]);
      assert dir + [parts[0]] + parts[1..] == dir + parts;
    }
  }

  /** A slash ends a component. */
  lemma {:induction false} PartsSlash(a: string, b: string, cur: string)
    ensures PartsFrom(a + "/" + b, cur) == PartsFrom(a, cur) + Parts(b)
    decreases |a|
  {
    if a == "" {
      assert a + "/" + b == "/" + b;
    } else {
      assert (a + "/" + b)[1..] == a[1..] + "/" + b;
      if a[0] == '/' {
        PartsSlash(a[1..], b, "");
        assert Piece(cur) + (PartsFrom(a[1..], "") + Parts(b)) == PartsFrom(a, cur) + Parts(b);
      } else {
        PartsSlash(a[1..], b, cur + [a[0]]);
      }
    }
  }

  /** Without slashes there is one component. */
  lemma {:induction false} PartsPlain(s: string, cur: string)
    requires '/' !in s
    ensures PartsFrom(s, cur) == Piece(cur + s)
    decreases |s|
  {
    if s == "" {
      assert cur + s == cur;
    } else {
      PartsPlain(s[1..], cur + [s[0]]);
      assert cur + [s[0]] + s[1..] == cur + s;
    }
  }

  /** splitPath inverts the join of clean components. */
  lemma {:induction false} PartsSlashed(parts: seq<string>)
    requires AllClean(parts)
    ensures Parts(Slashed(parts)) == parts
  {
    if parts != [] {
      var rest, last := parts[..|parts| - 1], parts[|parts| - 1];
      PartsSlashed(rest);
      PartsSlash(Slashed(rest), last, "");
      PartsPlain(last, "");
      assert "" + last == last;
    }
  }

  lemma SplitInvertsJoin(parts: seq<string>)
    requires AllClean(parts)
    ensures Parts(Join(parts)) == parts
  {
    PartsSlashed(parts);
    PartsSlash("", "", "");
    assert "" + "/" + "" == "/";
  }

  lemma JoinAbsolute(parts: seq<string>)
    ensures Join(parts) != "" && Join(parts)[0] == '/'
  {
    if parts != [] { SlashedAbsolute(parts); }
  }

  lemma {:induction false} SlashedAbsolute(parts: seq<string>)
    requires parts != []
    ensures Slashed(parts) != "" && Slashed(parts)[0] == '/'
  {
    var rest := parts[..|parts| - 1];
    if rest != [] { SlashedAbsolute(rest); }
  }

  /** normalizePath yields a path whose components are normal. */
  lemma NormalizeNormal(base: string, path: string)
    ensures Normal(Parts(Normalize(base, path)))
    ensures Normalize(base, path) == Join(Parts(Normalize(base, path)))
  {
    var parts := Walk([], Parts(Combined(base, path)));
    PartsClean(Combined(base, path), "");
    WalkNormal([], Parts(Combined(base, path)));
    SplitInvertsJoin(parts);
  }

  /** A normalised path is left alone, whatever it is taken relative to. */
  lemma NormalizeIdempotent(base: string, base': string, path: string)
    ensures Normalize(base', Normalize(base, path)) == Normalize(base, path)
  {
    var p := Normalize(base, path);
    NormalizeNormal(base, path);
    JoinAbsolute(Walk([], Parts(Combined(base, path))));
    assert Combined(base', p) == p;
    WalkDown([], Parts(p));
    assert [] + Parts(p) == Parts(p);
  }

  /** Relative to a normalised directory, a path is walked from that directory. */
  lemma NormalizeRelative(dir: seq<string>, path: string)
    requires Normal(dir)
    ensures Normalize(Join(dir), path)
      == Join(Walk(if path != "" && path[0] == '/' then [] else dir, Parts(path)))
  {
    var base := Join(dir);
    JoinAbsolute(dir);
    SplitInvertsJoin(dir);
    WalkDown([], dir);
    assert [] + dir == dir;
    if path == "" {
      assert Walk(dir, Parts(path)) == dir;
    } else if path[0] != '/' {
      if base == "/" {
        assert Join([]) == "/";
        SplitInvertsJoin([]);
        PartsSlash("", path, "");
        assert "" + "/" + path == Combined(base, path);
        assert [] + Parts(path) == Parts(path);
      } else {
        PartsSlash(base, path, "");
        assert Parts(Combined(base, path)) == dir + Parts(path);
        WalkConcat([], dir, Parts(path));
      }
    }
  }

  // ---------------------------------------------------------------------
  // The descendant guard on strings
  // ---------------------------------------------------------------------

  lemma {:induction false} SlashedConcat(a: seq<string>, b: seq<string>)
    ensures Slashed(a + b) == Slashed(a) + Slashed(b)
    decreases |b|
  {
    if b == [] {
      assert a + b == a;
    } else {
      var rest, last := b[..|b| - 1], b[|b| - 1];
      assert (a + b)[..|a + b| - 1] == a + rest;
      SlashedConcat(a, rest);
    }
  }

  /** pathIsDescendant holds exactly when one list of components properly extends the other. */
  lemma DescendantIsPrefix(p: seq<string>, q: seq<string>)
    requires Normal(p) && Normal(q) && p != []
    ensures IsDescendant(Join(p), Join(q)) <==> |q| > |p| && q[..|p|] == p
  {
    hide PartsFrom, Slashed, Normal;
    assert AllClean(p) && AllClean(q) by { NormalClean(p); NormalClean(q); }
    SlashedAbsolute(p);
    if |q| > |p| && q[..|p|] == p {
      assert q == p + q[|p|..];
      SlashedConcat(p, q[|p|..]);
      SlashedAbsolute(q[|p|..]);
      SplitInvertsJoin(p);
      if Join(p) == "/" { SplitInvertsJoin([]); }
    }
    if IsDescendant(Join(p), Join(q)) {
      var tail := Join(q)[|Join(p)| + 1..];
      assert Join(q) == Join(p) + "/" + tail;
      PartsSlash(Join(p), tail, "");
      SplitInvertsJoin(p);
      SplitInvertsJoin(q);
      assert q == p + Parts(tail);
      ProperTail(p, q, tail);
    }
  }

  lemma NormalClean(parts: seq<string>)
    requires Normal(parts)
    ensures AllClean(parts)
  {
  }

  lemma ProperTail(p: seq<string>, q: seq<string>, tail: string)
    requires Normal(p) && Normal(q) && p != [] && q == p + Parts(tail)
    requires Join(q) == Join(p) + "/" + tail
    ensures |q| > |p|
  {
    assert Parts(tail) == [] ==> q == p;
  }

  // ---------------------------------------------------------------------
  // The loops
  // ---------------------------------------------------------------------

  method SplitPath(path: string) returns (parts: seq<string>)
    ensures parts == Parts(path)
  {
    parts := [];
    var part := "";
    for i := 0 to |path|
      invariant parts + PartsFrom(path[i..], part) == Parts(path)
    {
      if path[i] == '/' {
        assert parts + (Piece(part) + PartsFrom(path[i..][1..], "")) == parts + Piece(part) + PartsFrom(path[i..][1..], "");
        if part != "" { parts := parts + [part]; }
        part := "";
      } else {
        part := part + [path[i]];
      }
    }
    if part != "" { parts := parts + [part]; }
  }

  method NormalizePath(base: string, path: string) returns (normalized: string)
    ensures normalized == Normalize(base, path)
  {
    var combined := Combined(base, path);
    var pieces := SplitPath(combined);
    var parts: seq<string> := [];
    for i := 0 to |pieces|
      invariant Walk(parts, pieces[i..]) == Walk([], pieces)
    {
      var part := pieces[i];
      assert pieces[i..][1..] == pieces[i + 1..];
      if part == "" || part == "." {
        continue;
      }
      if part == ".." {
        if parts != [] { parts := parts[..|parts| - 1]; }
        continue;
      }
      parts := parts + [part];
    }
    assert pieces[|pieces|..] == [];
    if parts == [] {
      return "/";
    }
    normalized := "";
    for i := 0 to |parts|
      invariant normalized == Slashed(parts[..i])
    {
      assert parts[..i + 1][..i] == parts[..i];
      normalized := normalized + "/" + parts[i];
    }
    assert parts[..|parts|] == parts;
  }
}
