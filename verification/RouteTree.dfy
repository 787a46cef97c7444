/**
 * What the two-step radix lookup answers, for a tree that finds the most specific registered
 * pattern.  Each route is registered under its method's prefix, once exactly and once with a
 * trailing wildcard; paths are literal text that begins with a slash.
 */
module RouteTree {
  import opened Words
  import opened RouteCache
  import opened Router

  const SLASH: byte := 47

  predicate IsPath(path: Path) {
    path != [] && path[0] == SLASH
  }

  /** A path without its trailing slashes. */
  function Trimmed(path: Path): Path {
    if path == [] || path[|path| - 1] != SLASH then path else Trimmed(path[..|path| - 1])
  }

  /** The literal part of a route's wildcard pattern; that of the root is empty. */
  function Stem(path: Path): Path {
    if path == [SLASH] then [] else Trimmed(path) + [SLASH]
  }

  /** The route for `pattern` serves `path`: itself, or something below it. */
  predicate Serves(pattern: Path, path: Path) {
    path == pattern || Stem(pattern) < path
  }

  /** How specific it is: the path itself comes before any wildcard. */
  function Rank(pattern: Path, path: Path): nat {
    if path == pattern then |path| + 1 else |Stem(pattern)|
  }

  // ----- The tree -----

  /** A registered pattern matches a lookup text. */
  predicate Matches(p: Pattern, text: Path) {
    var prefix := MethodPrefix(p.key.httpMethod);
    text == prefix + p.path || prefix + Stem(p.path) < text
  }

  function TextRank(p: Pattern, text: Path): nat {
    var prefix := MethodPrefix(p.key.httpMethod);
    if text == prefix + p.path then |text| + 1 else |prefix + Stem(p.path)|
  }

  ghost predicate IsBest(ps: set<Pattern>, text: Path, p: Pattern) {
    p in ps && Matches(p, text) && forall q | q in ps && Matches(q, text) :: TextRank(q, text) <= TextRank(p, text)
  }

  /** The tree answers with a most specific pattern that matches, and with none only if none does. */
  ghost predicate IsTree(m: Matcher) {
    forall ps: set<Pattern>, text: Path ::
      match m.at(ps, text)
      case None => forall p | p in ps :: !Matches(p, text)
      case Some(k) => exists p :: IsBest(ps, text, p) && p.key == k
  }

  lemma {:induction false} BestExists(ps: set<Pattern>, text: Path) returns (best: Pattern)
    requires exists p :: p in ps && Matches(p, text)
    ensures IsBest(ps, text, best)
  {
    best :| best in ps && Matches(best, text);
    var rest := ps - {best};
    if exists p :: p in rest && Matches(p, text) {
      var other := BestExists(rest, text);
      if TextRank(best, text) < TextRank(other, text) { best := other; }
    }
  }

  ghost function Choose(ps: set<Pattern>, text: Path): Option<RouteKey> {
    if exists p :: IsBest(ps, text, p) then (var p :| IsBest(ps, text, p); Some(p.key)) else None
  }

  /** There are such trees. */
  lemma {:induction false} TreesExist() returns (m: Matcher)
    ensures IsTree(m)
  {
    hide Matches, TextRank;
    m := Matcher((ps, text) => Choose(ps, text), ps => true);
    forall ps: set<Pattern>, text: Path
      ensures match m.at(ps, text)
        case None => forall p | p in ps :: !Matches(p, text)
        case Some(k) => exists p :: IsBest(ps, text, p) && p.key == k
    {
      if exists p :: p in ps && Matches(p, text) { var best := BestExists(ps, text); }
    }
  }

  // ----- What matches a method's text -----

  lemma {:induction false} StemStartsWithSlash(path: Path)
    requires IsPath(path) && path != [SLASH]
    ensures Stem(path)[0] == SLASH
  {
    TrimmedIsPrefix(path);
  }

  lemma {:induction false} TrimmedIsPrefix(path: Path)
    ensures Trimmed(path) <= path
  {
    if path != [] && path[|path| - 1] == SLASH { TrimmedIsPrefix(path[..|path| - 1]); }
  }

  lemma {:induction false} PrefixCancels(x: Path, a: Path, b: Path)
    ensures x + a == x + b <==> a == b
    ensures x + a < x + b <==> a < b
  {
    assert (x + a)[|x|..] == a && (x + b)[|x|..] == b;
    if x + a <= x + b {
      forall i | 0 <= i < |a| ensures a[i] == b[i] { assert (x + a)[|x| + i] == (x + b)[|x| + i]; }
    }
    if a <= b { assert b == a + b[|a|..]; assert x + b == (x + a) + b[|a|..]; }
  }

  /** The first two bytes tell the method. */
  lemma {:induction false} MethodShows(h1: HttpMethod, h2: HttpMethod)
    requires h1 != ALL && h2 != ALL && h1 != h2
    ensures |MethodPrefix(h1)| >= 2 && |MethodPrefix(h2)| >= 2
    ensures MethodPrefix(h1)[..2] != MethodPrefix(h2)[..2]
  {
    assert MethodPrefix(h1)[..2][0] != MethodPrefix(h2)[..2][0] || MethodPrefix(h1)[..2][1] != MethodPrefix(h2)[..2][1];
  }

  lemma {:induction false} LettersAreNotSlash(h: HttpMethod)
    requires h != ALL
    ensures |MethodPrefix(h)| >= 4 && MethodPrefix(h)[0] != SLASH
  {
  }

  /**
   * Under a method's prefix match the routes of that method that serve the path, and besides
   * only the root registered for all methods, whose wildcard is bare.
   */
  lemma {:induction false} WhatMatches(p: Pattern, h: HttpMethod, path: Path)
    requires IsPath(path) && IsPath(p.path)
    ensures var text := MethodPrefix(h) + path;
      && (Matches(p, text) <==>
          || (p.key.httpMethod == h && Serves(p.path, path))
          || (p.key.httpMethod == ALL && h != ALL && p.path == [SLASH]))
      && (p.key.httpMethod == h ==> TextRank(p, text) == |MethodPrefix(h)| + Rank(p.path, path))
      && (p.key.httpMethod == ALL && h != ALL && p.path == [SLASH] ==> TextRank(p, text) == 0)
  {
    hide MethodPrefix, Stem;
    var (h', x, stem) := (p.key.httpMethod, MethodPrefix(h), Stem(p.path));
    var y := MethodPrefix(h');
    AllHasNoPrefix();
    if h' == h {
      PrefixCancels(x, p.path, path);
      PrefixCancels(x, stem, path);
      PrefixCancels(x, path, p.path);
    } else if h' == ALL {
      LettersAreNotSlash(h);
      assert (x + path)[0] != SLASH && y + p.path == p.path && y + stem == stem;
      RootOrSlash(p.path);
    } else if h == ALL {
      LettersAreNotSlash(h');
      assert (y + p.path)[0] != SLASH && (y + stem)[0] != SLASH && x + path == path;
    } else {
      MethodShows(h, h');
      OtherMethod(x, path, y, p.path);
      OtherMethod(x, path, y, stem);
    }
  }

  lemma {:induction false} AllHasNoPrefix()
    ensures MethodPrefix(ALL) == []
  {
  }

  lemma {:induction false} RootOrSlash(path: Path)
    requires IsPath(path)
    ensures if path == [SLASH] then Stem(path) == [] else Stem(path) != [] && Stem(path)[0] == SLASH
  {
    if path != [SLASH] { StemStartsWithSlash(path); }
  }

  lemma {:induction false} OtherMethod(x: Path, a: Path, y: Path, b: Path)
    requires |x| >= 2 && |y| >= 2 && x[..2] != y[..2]
    ensures x + a != y + b && !(y + b < x + a)
  {
    assert (x + a)[..2] == x[..2] && (y + b)[..2] == y[..2];
  }

  // ----- The law -----

  /** Route `k` of method `h` serves the path, and no other route of that method does so more specifically. */
  ghost predicate IsMostSpecific(ps: set<Pattern>, h: HttpMethod, path: Path, k: RouteKey) {
    exists p ::
      && p in ps && p.key == k && k.httpMethod == h && Serves(p.path, path)
      && forall q | q in ps && q.key.httpMethod == h && Serves(q.path, path) :: Rank(q.path, path) <= Rank(p.path, path)
  }

  ghost predicate IsServed(ps: set<Pattern>, h: HttpMethod, path: Path) {
    exists p :: p in ps && p.key.httpMethod == h && Serves(p.path, path)
  }

  ghost predicate HasRoot(ps: set<Pattern>) {
    exists p :: p in ps && p.key.httpMethod == ALL && p.path == [SLASH]
  }

  ghost predicate ArePaths(ps: set<Pattern>) {
    forall p | p in ps :: IsPath(p.path)
  }

  /** The first step: own routes, then the root for all methods. */
  lemma {:induction false} MethodLookup(m: Matcher, ps: set<Pattern>, h: HttpMethod, path: Path)
    requires IsTree(m) && ArePaths(ps) && IsPath(path)
    ensures var found := m.at(ps, MethodPrefix(h) + path);
      if IsServed(ps, h, path) then found.Some? && IsMostSpecific(ps, h, path, found.value)
      else if h != ALL && HasRoot(ps) then
        found.Some? && exists p :: p in ps && p.key == found.value && p.key.httpMethod == ALL && p.path == [SLASH]
      else found == None
  {
    hide MethodPrefix, Matches, TextRank, Rank, Serves;
    var text := MethodPrefix(h) + path;
    forall p | p in ps
      ensures Matches(p, text) <==>
        || (p.key.httpMethod == h && Serves(p.path, path))
        || (p.key.httpMethod == ALL && h != ALL && p.path == [SLASH])
    {
      WhatMatches(p, h, path);
    }
    if m.at(ps, text).Some? {
      var best :| IsBest(ps, text, best) && best.key == m.at(ps, text).value;
      WhatMatches(best, h, path);
      if IsServed(ps, h, path) {
        var own :| own in ps && own.key.httpMethod == h && Serves(own.path, path);
        WhatMatches(own, h, path);
        OwnBeatsRoot(own, h, path);
        forall q | q in ps && q.key.httpMethod == h && Serves(q.path, path)
          ensures Rank(q.path, path) <= Rank(best.path, path)
        {
          WhatMatches(q, h, path);
        }
      }
    }
  }

  lemma {:induction false} OwnBeatsRoot(p: Pattern, h: HttpMethod, path: Path)
    requires IsPath(path) && IsPath(p.path) && p.key.httpMethod == h
    ensures h != ALL ==> TextRank(p, MethodPrefix(h) + path) > 0
  {
    hide Stem;
    if h != ALL { LettersAreNotSlash(h); }
  }

  /**
   * The two steps together: the most specific route of the request's own method that serves the
   * path; else, if the root is registered for all methods, the root; else the most specific route
   * for all methods; else none.
   */
  lemma {:induction false} TreeLaw(m: Matcher, ps: set<Pattern>, h: HttpMethod, path: Path)
    requires IsTree(m) && ArePaths(ps) && IsPath(path)
    ensures var found := TreeAnswer(m, ps, h, path);
      if IsServed(ps, h, path) then found.Some? && IsMostSpecific(ps, h, path, found.value)
      else if h != ALL && HasRoot(ps) then
        found.Some? && exists p :: p in ps && p.key == found.value && p.key.httpMethod == ALL && p.path == [SLASH]
      else if h != ALL && IsServed(ps, ALL, path) then found.Some? && IsMostSpecific(ps, ALL, path, found.value)
      else found == None
  {
    hide IsTree, IsMostSpecific, IsServed, HasRoot, ArePaths;
    MethodLookup(m, ps, h, path);
    MethodLookup(m, ps, ALL, path);
    AllHasNoPrefix();
    assert MethodPrefix(ALL) + path == path;
  }

  /** As in a router, where a key has one route. */
  ghost predicate KeysAreUnique(ps: set<Pattern>) {
    forall p, q | p in ps && q in ps && p.key == q.key :: p == q
  }

  lemma {:induction false} RootRank(path: Path, q: Path)
    requires IsPath(path) && IsPath(q) && Serves(q, path)
    ensures Serves([SLASH], path)
    ensures q != [SLASH] ==> Rank([SLASH], path) < Rank(q, path)
  {
    RootOrSlash(q);
  }

  /**
   * So a request that no route of its own method serves gets the most specific route for all
   * methods exactly if the root is not registered for all methods or is the only such route that
   * serves the path.
   */
  lemma {:induction false} MostSpecificIff(m: Matcher, ps: set<Pattern>, h: HttpMethod, path: Path)
    requires IsTree(m) && ArePaths(ps) && IsPath(path) && KeysAreUnique(ps)
    requires h != ALL && !IsServed(ps, h, path) && IsServed(ps, ALL, path)
    ensures var found := TreeAnswer(m, ps, h, path);
      && found.Some?
      && (IsMostSpecific(ps, ALL, path, found.value) <==>
          || !HasRoot(ps)
          || forall q | q in ps && q.key.httpMethod == ALL && Serves(q.path, path) :: q.path == [SLASH])
  {
    hide IsTree, Serves, Rank, TreeAnswer;
    TreeLaw(m, ps, h, path);
    var found := TreeAnswer(m, ps, h, path);
    if HasRoot(ps) {
      var root :| root in ps && root.key == found.value && root.key.httpMethod == ALL && root.path == [SLASH];
      forall q | q in ps && q.key.httpMethod == ALL && Serves(q.path, path)
        ensures Serves(root.path, path) && (q.path != [SLASH] ==> Rank(root.path, path) < Rank(q.path, path))
      {
        RootRank(path, q.path);
      }
    }
  }

  /** Routes for all methods on `/` and `/api`: a GET of `/api/x` is sent to the root. */
  lemma {:induction false} RootHidesApi(m: Matcher, root: RouteKey, api: RouteKey)
    requires IsTree(m) && root.httpMethod == ALL && api.httpMethod == ALL && root != api
    ensures var ps := {Pattern(root, [SLASH]), Pattern(api, [SLASH, 97, 112, 105])};
      var path := [SLASH, 97, 112, 105, SLASH, 120];
      && TreeAnswer(m, ps, GET, path) == Some(root)
      && Serves([SLASH, 97, 112, 105], path) && !IsMostSpecific(ps, ALL, path, root)
  {
    hide IsTree, TreeAnswer, MethodPrefix, Matches;
    var (a, path) := ([SLASH, 97, 112, 105], [SLASH, 97, 112, 105, SLASH, 120]);
    var ps := {Pattern(root, [SLASH]), Pattern(api, a)};
    assert Trimmed(a) == a;
    assert Serves(a, path) && Pattern(api, a) in ps && Pattern(root, [SLASH]) in ps;
    TreeLaw(m, ps, GET, path);
    MostSpecificIff(m, ps, GET, path);
  }
}
