// Go's path/filepath helpers as the services use them on Windows, and the
// three regular expressions of the services as explicit matchers.

module FilePaths {
  import opened Strings

  /** os.IsPathSeparator on Windows, the platform the launcher runs on. */
  predicate IsSeparator(c: char) {
    c == '\\' || c == '/'
  }

  /** Neither a dot nor a path separator anywhere in `s`. */
  predicate Plain(s: string) {
    forall k :: 0 <= k < |s| ==> s[k] != '.' && !IsSeparator(s[k])
  }

  /** The shape of every result of Ext: empty, or a dot followed by plain characters. */
  predicate IsExtension(e: string) {
    e == [] || (e[0] == '.' && Plain(e[1..]))
  }

  /**
   * filepath.Ext: the suffix of `path` that starts at the last dot of its
   * final element, or empty when that element has no dot.
   */
  function Ext(path: string): (e: string)
    ensures HasSuffix(path, e)
    ensures IsExtension(e)
  {
    if path == [] then []
    else
      var c := path[|path| - 1];
      if IsSeparator(c) then []
      else if c == '.' then ['.']
      else
        var e := Ext(path[..|path| - 1]);
        assert path[..|path| - 1] + [c] == path;
        if e == [] then [] else e + [c]
  }

  /** strings.TrimSuffix(path, filepath.Ext(path)): the name without its extension. */
  function Stem(path: string): (r: string)
    ensures r + Ext(path) == path
  {
    path[..|path| - |Ext(path)|]
  }

  /** One plain character more extends an existing extension and leaves a missing one missing. */
  lemma ExtStep(y: string, c: char)
    requires c != '.' && !IsSeparator(c)
    ensures Ext(y + [c]) == if Ext(y) == [] then [] else Ext(y) + [c]
  {
    assert (y + [c])[..|y|] == y;
  }

  /** Splitting off the first character of the appended part. */
  lemma SplitFirst(x: string, s: string)
    requires s != []
    ensures x + [s[0]] + s[1..] == x + s
  {
    assert [s[0]] + s[1..] == s;
  }

  /** Appending plain characters extends an existing extension and leaves a missing one missing. */
  lemma {:induction false} ExtOfPlainSuffix(x: string, s: string)
    requires Plain(s)
    ensures Ext(x + s) == if Ext(x) == [] then [] else Ext(x) + s
    decreases |s|
  {
    if s == [] {
      assert x + s == x;
    } else {
      var c, rest := s[0], s[1..];
      var y := x + [c];
      assert c != '.' && !IsSeparator(c) && Plain(rest);
      ExtStep(x, c);
      ExtOfPlainSuffix(y, rest);
      SplitFirst(x, s);
      SplitFirst(Ext(x), s);
    }
  }

  /** A name ending in a dot and plain characters has exactly that extension. */
  lemma ExtOfDotted(x: string, s: string)
    requires Plain(s)
    ensures Ext(x + ['.'] + s) == ['.'] + s
  {
    var d := x + ['.'];
    assert d[..|d| - 1] == x;
    assert Ext(d) == ['.'];
    ExtOfPlainSuffix(d, s);
  }

  /** Appending a non-empty extension: it becomes the extension and the rest the stem. */
  lemma StemOfExtended(x: string, e: string)
    requires e != [] && IsExtension(e)
    ensures Ext(x + e) == e && Stem(x + e) == x
  {
    assert e == ['.'] + e[1..];
    assert x + e == x + ['.'] + e[1..];
    ExtOfDotted(x, e[1..]);
  }

  predicate IsDriveLetter(c: char) {
    ('A' <= c <= 'Z') || ('a' <= c <= 'z')
  }

  /**
   * filepath.IsAbs on Windows for the two usual forms: a drive letter, a colon
   * and a separator (`C:\...`), or a UNC path that starts with two separators.
   */
  predicate IsAbs(path: string) {
    (|path| >= 3 && IsDriveLetter(path[0]) && path[1] == ':' && IsSeparator(path[2]))
    || (|path| >= 2 && IsSeparator(path[0]) && IsSeparator(path[1]))
  }

  /**
   * `C:\` and `\\` followed by anything are absolute, and a name without
   * separators, such as a file of the avatar library, is not.
   */
  lemma IsAbsForms(d: char, rest: string, name: string)
    requires forall k :: 0 <= k < |name| ==> !IsSeparator(name[k])
    ensures IsDriveLetter(d) ==> IsAbs([d, ':', '\\'] + rest)
    ensures IsAbs("\\\\" + rest) && IsAbs("//" + rest)
    ensures !IsAbs(name)
  {
    if |name| >= 2 {
      assert !IsSeparator(name[0]);
      assert !IsSeparator(name[1]);
    }
  }
}

module Patterns {
  import opened Wrappers
  import opened Strings

  /** The character classes the three regular expressions repeat. */
  datatype CharClass = NotLineBreak | NotQuote | LowerHexDigit

  predicate InClass(k: CharClass, c: char) {
    match k
    case NotLineBreak => c != '\r' && c != '\n'
    case NotQuote => c != '"'
    case LowerHexDigit => ('a' <= c <= 'f') || ('0' <= c <= '9')
  }

  /**
   * A regular expression `literal(class+)closing` with one capture group,
   * where the optional closing character is outside the class.
   */
  datatype Pattern = Pattern(literal: string, repeated: CharClass, closing: Option<char>)

  /** `Data=([^\r\n]+)` */
  const TokenPattern := Pattern("Data=", NotLineBreak, None)
  /** `-epicusername="([^"]+)"` */
  const UsernamePattern := Pattern("-epicusername=\"", NotQuote, Some('"'))
  /** `-epicuserid=([a-f0-9]+)` */
  const UserIdPattern := Pattern("-epicuserid=", LowerHexDigit, None)

  /** The longest prefix of `s` made of characters of class `k`: a greedy repetition. */
  function Run(k: CharClass, s: string): (r: string)
    ensures HasPrefix(s, r)
    ensures forall j :: 0 <= j < |r| ==> InClass(k, r[j])
    ensures |r| < |s| ==> !InClass(k, s[|r|])
  {
    if s != [] && InClass(k, s[0]) then [s[0]] + Run(k, s[1..]) else []
  }

  /** A maximal prefix of class characters is the greedy run. */
  lemma {:induction false} RunIsMaximalPrefix(k: CharClass, s: string, t: string)
    requires HasPrefix(s, t)
    requires forall j :: 0 <= j < |t| ==> InClass(k, t[j])
    requires |t| == |s| || !InClass(k, s[|t|])
    ensures Run(k, s) == t
    decreases |t|
  {
    if t != [] {
      assert s[1..][..|t| - 1] == t[1..];
      RunIsMaximalPrefix(k, s[1..], t[1..]);
      assert [s[0]] + t[1..] == t;
    }
  }

  /** The captured group of a match of `p` that starts exactly at index `i` of `s`. */
  function MatchAt(p: Pattern, s: string, i: nat): Option<string>
    requires i <= |s|
  {
    if !HasPrefix(s[i..], p.literal) then None
    else
      var g := Run(p.repeated, s[i + |p.literal|..]);
      var end := i + |p.literal| + |g|;
      if g == [] then None
      else match p.closing
        case None => Some(g)
        case Some(c) => if end < |s| && s[end] == c then Some(g) else None
  }

  /** A match starts with the literal and captures a non-empty run of class characters that follows it. */
  lemma MatchAtShape(p: Pattern, s: string, i: nat)
    requires i <= |s|
    ensures var g := MatchAt(p, s, i);
      && (g.Some? ==> HasPrefix(s[i..], p.literal) && g.value != [])
      && (g.Some? ==> HasPrefix(s[i + |p.literal|..], g.value))
      && (g.Some? ==> forall j :: 0 <= j < |g.value| ==> InClass(p.repeated, g.value[j]))
  {
  }

  /** The closing character, if any, lies outside the repeated class, as in all three expressions. */
  predicate WellFormed(p: Pattern) {
    p.closing.Some? ==> !InClass(p.repeated, p.closing.value)
  }

  /**
   * The text a match at index i consists of: the literal, the group g, and
   * then the closing character, or for a pattern without one, the end of
   * `s` or a character outside the class.
   */
  predicate MatchesWith(p: Pattern, s: string, i: nat, g: string)
    requires i <= |s|
  {
    var end := i + |p.literal| + |g|;
    && HasPrefix(s[i..], p.literal + g)
    && match p.closing
       case None => end == |s| || !InClass(p.repeated, s[end])
       case Some(c) => end < |s| && s[end] == c
  }

  /** A captured group reads as a match: the literal, the group, then what must follow it. */
  lemma MatchAtReads(p: Pattern, s: string, i: nat, g: string)
    requires i <= |s| && MatchAt(p, s, i) == Some(g)
    ensures MatchesWith(p, s, i, g)
  {
    var n := |p.literal|;
    var t := s[i + n..];
    assert HasPrefix(s[i..], p.literal);
    assert Run(p.repeated, t) == g;
    assert s[i..][..n + |g|] == s[i..][..n] + t[..|g|];
    if p.closing.None? && i + n + |g| < |s| {
      assert s[i + n + |g|] == t[|g|];
    }
  }

  /** Text that reads as a match with a non-empty group of class characters is captured as that group. */
  lemma ReadsAsMatch(p: Pattern, s: string, i: nat, g: string)
    requires i <= |s| && WellFormed(p)
    requires g != [] && forall j :: 0 <= j < |g| ==> InClass(p.repeated, g[j])
    requires MatchesWith(p, s, i, g)
    ensures MatchAt(p, s, i) == Some(g)
  {
    var n := |p.literal|;
    var t := s[i + n..];
    assert s[i..][..n] == (p.literal + g)[..n] == p.literal;
    assert t[..|g|] == s[i..][n..n + |g|] == (p.literal + g)[n..] == g;
    if i + n + |g| < |s| {
      assert t[|g|] == s[i + n + |g|];
    }
    RunIsMaximalPrefix(p.repeated, t, g);
  }

  /** Both directions: a group of class characters is captured at i exactly when the text there reads as that match. */
  lemma MatchAtMeaning(p: Pattern, s: string, i: nat, g: string)
    requires i <= |s| && WellFormed(p)
    requires g != [] && forall j :: 0 <= j < |g| ==> InClass(p.repeated, g[j])
    ensures MatchAt(p, s, i) == Some(g) <==> MatchesWith(p, s, i, g)
  {
    if MatchAt(p, s, i) == Some(g) {
      MatchAtReads(p, s, i, g);
    }
    if MatchesWith(p, s, i, g) {
      ReadsAsMatch(p, s, i, g);
    }
  }

  /** Whether `p` matches at each start index 0 .. |s| of `s`. */
  function Hits(p: Pattern, s: string): (hits: seq<bool>)
    ensures |hits| == |s| + 1
    ensures forall j :: 0 <= j <= |s| ==> (hits[j] <==> MatchAt(p, s, j).Some?)
  {
    seq(|s| + 1, j requires 0 <= j <= |s| => MatchAt(p, s, j).Some?)
  }

  /** The first index at or after `i` whose entry is true. */
  function FirstHit(hits: seq<bool>, i: nat): (r: Option<nat>)
    requires i <= |hits|
    ensures r.Some? ==> i <= r.value < |hits|
    decreases |hits| - i
  {
    if i == |hits| then None
    else if hits[i] then Some(i)
    else FirstHit(hits, i + 1)
  }

  /** FirstHit finds the leftmost true entry at or after `i`, and none only when there is none. */
  lemma {:induction false} FirstHitIsLeftmost(hits: seq<bool>, i: nat)
    requires i <= |hits|
    ensures var r := FirstHit(hits, i);
      && (r.Some? ==> hits[r.value])
      && (r.Some? ==> forall j :: i <= j < r.value ==> !hits[j])
      && (r.None? ==> forall j :: i <= j < |hits| ==> !hits[j])
    decreases |hits| - i
  {
    if i < |hits| && !hits[i] {
      FirstHitIsLeftmost(hits, i + 1);
    }
  }

  /** The index regexp's leftmost-first search settles on: the first one at or after `i` where `p` matches. */
  function FirstMatchFrom(p: Pattern, s: string, i: nat): (r: Option<nat>)
    requires i <= |s|
    ensures r.Some? ==> i <= r.value <= |s|
  {
    FirstHit(Hits(p, s), i)
  }

  /** The search finds the leftmost match at or after `i`, and finds none only when there is none. */
  lemma FirstMatchIsLeftmost(p: Pattern, s: string, i: nat)
    requires i <= |s|
    ensures var r := FirstMatchFrom(p, s, i);
      && (r.Some? ==> MatchAt(p, s, r.value).Some?)
      && (r.Some? ==> forall j :: i <= j < r.value ==> MatchAt(p, s, j).None?)
      && (r.None? ==> forall j :: i <= j <= |s| ==> MatchAt(p, s, j).None?)
  {
    FirstHitIsLeftmost(Hits(p, s), i);
  }

  /** regexp.FindStringSubmatch(s)[1]: the group of the leftmost match, if there is one. */
  function Find(p: Pattern, s: string): (g: Option<string>)
  {
    match FirstMatchFrom(p, s, 0)
    case Some(i) => MatchAt(p, s, i)
    case None => None
  }

  /** Find fails exactly when the pattern matches nowhere, and otherwise captures the group of the leftmost match. */
  lemma FindIsLeftmost(p: Pattern, s: string)
    ensures var g := Find(p, s);
      && (g.None? <==> forall j :: 0 <= j <= |s| ==> MatchAt(p, s, j).None?)
      && (g.Some? ==> FirstMatchFrom(p, s, 0).Some? && g == MatchAt(p, s, FirstMatchFrom(p, s, 0).value))
      && (g.Some? ==> exists i :: 0 <= i <= |s| && MatchAt(p, s, i) == g)
      && (g.Some? ==> g.value != [] && forall j :: 0 <= j < |g.value| ==> InClass(p.repeated, g.value[j]))
  {
    FirstMatchIsLeftmost(p, s, 0);
    var r := FirstMatchFrom(p, s, 0);
    if r.Some? {
      MatchAtShape(p, s, r.value);
    }
  }

  /**
   * `g` is the group of the leftmost match of `p` in `s`: a non-empty run of
   * class characters that `s` reads as a match at some index i, with the
   * matcher finding nothing at any index before i.
   */
  predicate LeftmostGroup(p: Pattern, s: string, g: string) {
    && g != []
    && (forall k :: 0 <= k < |g| ==> InClass(p.repeated, g[k]))
    && exists i :: 0 <= i <= |s| && MatchesWith(p, s, i, g) && forall j :: 0 <= j < i ==> MatchAt(p, s, j).None?
  }

  /** Both directions: Find captures `g` exactly when `g` is the group of the leftmost match. */
  lemma FindMeaning(p: Pattern, s: string, g: string)
    requires WellFormed(p)
    ensures Find(p, s) == Some(g) <==> LeftmostGroup(p, s, g)
  {
    FindIsLeftmost(p, s);
    FirstMatchIsLeftmost(p, s, 0);
    var r := FirstMatchFrom(p, s, 0);
    if Find(p, s) == Some(g) {
      MatchAtMeaning(p, s, r.value, g);
      assert MatchesWith(p, s, r.value, g);
    }
    if LeftmostGroup(p, s, g) {
      var i :| 0 <= i <= |s| && MatchesWith(p, s, i, g) && forall j :: 0 <= j < i ==> MatchAt(p, s, j).None?;
      MatchAtMeaning(p, s, i, g);
      assert r.value == i;
    }
  }
}
