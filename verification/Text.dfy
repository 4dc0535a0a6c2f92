/** The string operations the source borrows from Rust's `str`, on sequences of
    characters, with the laws the proofs need. */
module Text {
  import opened Options

  // ----- Stripping (trim, trim_matches, trim_start_matches, trim_end_matches) -----

  /** Unicode White_Space, which `char::is_whitespace` tests. */
  predicate IsSpace(c: char) {
    var n := c as int;
    || 0x09 <= n <= 0x0D || n == 0x20 || n == 0x85 || n == 0xA0 || n == 0x1680
    || 0x2000 <= n <= 0x200A || n == 0x2028 || n == 0x2029 || n == 0x202F
    || n == 0x205F || n == 0x3000
  }

  datatype Class = Space | One(c: char) {
    predicate Has(ch: char) {
      if Space? then IsSpace(ch) else ch == c
    }
    predicate All(s: string) {
      forall i :: 0 <= i < |s| ==> Has(s[i])
    }
  }

  function StripStart(s: string, k: Class): string {
    if s != "" && k.Has(s[0]) then StripStart(s[1..], k) else s
  }

  function StripEnd(s: string, k: Class): string {
    if s != "" && k.Has(s[|s| - 1]) then StripEnd(s[..|s| - 1], k) else s
  }

  function Strip(s: string, k: Class): string {
    StripEnd(StripStart(s, k), k)
  }

  function Trim(s: string): string {
    Strip(s, Space)
  }

  /** Nothing left to strip: the empty string, or both ends outside the class. */
  predicate Bare(s: string, k: Class) {
    s == "" || (!k.Has(s[0]) && !k.Has(s[|s| - 1]))
  }

  lemma {:induction false} StripStartSkips(l: string, m: string, k: Class)
    requires k.All(l)
    ensures StripStart(l + m, k) == StripStart(m, k)
  {
    if l == "" {
      assert l + m == m;
    } else {
      assert (l + m)[1..] == l[1..] + m;
      StripStartSkips(l[1..], m, k);
    }
  }

  lemma {:induction false} StripEndSkips(m: string, r: string, k: Class)
    requires k.All(r)
    ensures StripEnd(m + r, k) == StripEnd(m, k)
  {
    if r == "" {
      assert m + r == m;
    } else {
      assert (m + r)[..|m + r| - 1] == m + r[..|r| - 1];
      StripEndSkips(m, r[..|r| - 1], k);
    }
  }

  lemma {:induction false} StripStartCut(s: string, k: Class) returns (i: nat)
    ensures i <= |s| && StripStart(s, k) == s[i..] && k.All(s[..i])
    ensures i < |s| ==> !k.Has(s[i])
  {
    if s != "" && k.Has(s[0]) {
      var j := StripStartCut(s[1..], k);
      i := j + 1;
      assert s[..i] == [s[0]] + s[1..][..j];
    } else {
      i := 0;
    }
  }

  lemma {:induction false} StripEndCut(s: string, k: Class) returns (j: nat)
    ensures j <= |s| && StripEnd(s, k) == s[..j] && k.All(s[j..])
    ensures j > 0 ==> !k.Has(s[j - 1])
  {
    if s != "" && k.Has(s[|s| - 1]) {
      j := StripEndCut(s[..|s| - 1], k);
      assert s[j..] == s[..|s| - 1][j..] + [s[|s| - 1]];
    } else {
      j := |s|;
    }
  }

  /** Stripping cuts a middle piece out of the string; the middle is bare. */
  lemma StripCut(s: string, k: Class) returns (i: nat, j: nat)
    ensures i <= j <= |s| && Strip(s, k) == s[i..j]
    ensures k.All(s[..i]) && k.All(s[j..])
    ensures Bare(Strip(s, k), k)
  {
    i := StripStartCut(s, k);
    var m := s[i..];
    var e := StripEndCut(m, k);
    j := i + e;
    assert m[..e] == s[i..j] && m[e..] == s[j..];
  }

  /** The stripped string is the only bare middle between two class-only ends. */
  lemma StripUnique(l: string, m: string, r: string, k: Class)
    requires k.All(l) && k.All(r) && Bare(m, k)
    ensures Strip(l + m + r, k) == m
  {
    assert l + m + r == l + (m + r);
    StripStartSkips(l, m + r, k);
    if m == "" {
      assert m + r == r + "";
      StripStartSkips(r, "", k);
    } else {
      assert StripStart(m + r, k) == m + r;
      StripEndSkips(m, r, k);
    }
  }

  /** Padding a string with class characters does not change its stripped form. */
  lemma StripPad(l: string, m: string, r: string, k: Class)
    requires k.All(l) && k.All(r)
    ensures Strip(l + m + r, k) == Strip(m, k)
  {
    var i, j := StripCut(m, k);
    var l', r' := l + m[..i], m[j..] + r;
    assert l + m + r == l' + m[i..j] + r';
    assert k.All(l') && k.All(r');
    StripUnique(l', m[i..j], r', k);
  }

  lemma StripBare(s: string, k: Class)
    requires Bare(s, k)
    ensures Strip(s, k) == s
  {
    StripUnique("", s, "", k);
    assert "" + s + "" == s;
  }

  lemma StripIdempotent(s: string, k: Class)
    ensures Bare(Strip(s, k), k) && Strip(Strip(s, k), k) == Strip(s, k)
  {
    var _, _ := StripCut(s, k);
    StripBare(Strip(s, k), k);
  }

  /** The source's trim_value: outer white space, then double, then single quotes. */
  function TrimValue(s: string): string {
    Strip(Strip(Trim(s), One('"')), One('\''))
  }

  lemma TrimKeepsPrefix(u: string, w: string)
    requires u != "" && Bare(u, Space)
    ensures u <= Trim(u + w)
  {
    assert StripStart(u + w, Space) == u + w;
    StripEndKeepsPrefix(u, w);
  }

  lemma {:induction false} StripEndKeepsPrefix(u: string, w: string)
    requires u != "" && Bare(u, Space)
    ensures u <= StripEnd(u + w, Space)
  {
    if w == "" {
      assert u + w == u;
    } else {
      assert (u + w)[..|u + w| - 1] == u + w[..|w| - 1];
      StripEndKeepsPrefix(u, w[..|w| - 1]);
    }
  }

  /** A string is its stripped form between two ends made of class characters. */
  lemma StripParts(s: string, k: Class) returns (l: string, r: string)
    ensures s == l + Strip(s, k) + r && k.All(l) && k.All(r)
    ensures s != "" && !k.Has(s[|s| - 1]) ==> r == ""
  {
    var i, j := StripCut(s, k);
    l, r := s[..i], s[j..];
    if r != "" { assert r[|r| - 1] == s[|s| - 1]; }
  }

  predicate IsPeel(c: char) {
    IsSpace(c) || c == '"' || c == '\''
  }

  /** What trim_value takes off a string with no trailing white space. */
  lemma TrimValueParts(s: string) returns (l: string, r: string)
    requires s == "" || !IsSpace(s[|s| - 1])
    ensures s == l + TrimValue(s) + r
    ensures forall n :: 0 <= n < |l| ==> IsPeel(l[n])
    ensures forall n :: 0 <= n < |r| ==> r[n] == '"' || r[n] == '\''
  {
    var l0, r0 := StripParts(s, Space);
    var l1, r1 := StripParts(Trim(s), One('"'));
    var l2, r2 := StripParts(Strip(Trim(s), One('"')), One('\''));
    l, r := l0 + l1 + l2, r2 + r1;
    Unwrap(l0, l1, l2, TrimValue(s), r2, r1);
    assert s == l0 + Trim(s);
  }

  lemma Unwrap(l0: string, l1: string, l2: string, m: string, r2: string, r1: string)
    ensures l0 + (l1 + (l2 + m + r2) + r1) == l0 + l1 + l2 + m + (r2 + r1)
  {
  }

  // ----- Searching (find, contains, split_once, starts_with) -----

  function Find(s: string, p: string): Option<nat>
    requires p != ""
  {
    if p <= s then Some(0)
    else if s == "" then None
    else match Find(s[1..], p)
      case None => None
      case Some(i) => Some(i + 1)
  }

  predicate Contains(s: string, p: string)
    requires p != ""
  {
    Find(s, p).Some?
  }

  function SplitOnce(s: string, p: string): Option<(string, string)>
    requires p != ""
  {
    match Find(s, p)
    case None => None
    case Some(i) => FindMeets(s, p); Some((s[..i], s[i + |p|..]))
  }

  predicate At(s: string, p: string, i: int) {
    0 <= i <= |s| && p <= s[i..]
  }

  /** Find returns the first position at which the pattern occurs, if any. */
  lemma {:induction false} FindMeets(s: string, p: string)
    requires p != ""
    ensures Find(s, p).Some? ==>
              At(s, p, Find(s, p).value) && Find(s, p).value + |p| <= |s| &&
              forall j :: 0 <= j < Find(s, p).value ==> !At(s, p, j)
    ensures Find(s, p).None? ==> forall j :: !At(s, p, j)
  {
    if p <= s || s == "" {
    } else {
      FindMeets(s[1..], p);
      forall j | At(s, p, j)
        ensures At(s[1..], p, j - 1)
      {
        assert j != 0;
        assert s[j..] == s[1..][j - 1..];
      }
      if Find(s, p).Some? {
        var i := Find(s, p).value;
        assert s[i..] == s[1..][i - 1..];
      }
    }
  }

  lemma FindAt(s: string, p: string, i: nat)
    requires p != "" && At(s, p, i)
    requires forall j :: 0 <= j < i ==> !At(s, p, j)
    ensures Find(s, p) == Some(i)
  {
    FindMeets(s, p);
  }

  lemma ContainsAt(s: string, p: string)
    requires p != ""
    ensures Contains(s, p) <==> exists i :: At(s, p, i)
  {
    FindMeets(s, p);
  }

  lemma AtChars(s: string, p: string, i: int)
    ensures At(s, p, i) ==> i + |p| <= |s| && forall k :: 0 <= k < |p| ==> s[i + k] == p[k]
  {
    if At(s, p, i) {
      forall k | 0 <= k < |p| ensures s[i + k] == p[k] { assert s[i..][k] == s[i + k]; }
    }
  }

  /** The characters at an occurrence of a pattern that is contained. */
  lemma Occurrence(s: string, p: string) returns (i: nat)
    requires p != ""
    ensures Contains(s, p) ==> i + |p| <= |s| && forall k :: 0 <= k < |p| ==> s[i + k] == p[k]
  {
    FindMeets(s, p);
    i := if Contains(s, p) then Find(s, p).value else 0;
    AtChars(s, p, i);
  }

  /** Prepending a character: the pattern occurs at the front or in the rest. */
  lemma ContainsCons(c: char, s: string, p: string)
    requires p != ""
    ensures Contains([c] + s, p) <==> Contains(s, p) || (p[0] == c && p[1..] <= s)
  {
    assert ([c] + s)[1..] == s;
    if p[0] == c && p[1..] <= s { assert p == [c] + p[1..]; }
    if p <= [c] + s { assert ([c] + s)[..|p|][1..] == s[..|p| - 1]; }
  }

  predicate Absent(c: char, s: string) {
    forall i :: 0 <= i < |s| ==> s[i] != c
  }

  /** A prefix without the pattern's first character is stepped over. */
  lemma {:induction false} FindSkip(u: string, w: string, p: string)
    requires p != "" && Absent(p[0], u)
    ensures Find(u + w, p) == match Find(w, p) case None => None case Some(i) => Some(|u| + i)
  {
    if u == "" {
      assert u + w == w;
    } else {
      assert (u + w)[1..] == u[1..] + w;
      assert (u + w)[0] == u[0] == p[0] ==> false;
      FindSkip(u[1..], w, p);
    }
  }

  /** An occurrence straddling a character outside the pattern is impossible. */
  lemma AtAcross(u: string, c: char, v: string, p: string, i: nat)
    requires p != "" && Absent(c, p) && At(u + [c] + v, p, i)
    ensures At(u, p, i) || (i > |u| && At(v, p, i - |u| - 1))
  {
    var s := u + [c] + v;
    assert forall k :: 0 <= k < |p| ==> p[k] == s[i..][k] == s[i + k];
    assert forall j :: i <= j < i + |p| ==> s[j] == p[j - i];
    assert s[|u|] == c;
    if i + |p| <= |u| {
      assert forall k :: 0 <= k < |p| ==> u[i..][k] == s[i + k];
    } else if i > |u| {
      assert v[i - |u| - 1..] == s[i..];
    } else {
      assert false;
    }
  }

  /** A character outside the pattern separates the two halves of a search. */
  lemma ContainsAcross(u: string, c: char, v: string, p: string)
    requires p != "" && Absent(c, p)
    ensures Contains(u + [c] + v, p) <==> Contains(u, p) || Contains(v, p)
  {
    var s := u + [c] + v;
    if Contains(s, p) {
      FindMeets(s, p);
      var i := Find(s, p).value;
      AtAcross(u, c, v, p, i);
      FindMeets(u, p); FindMeets(v, p);
    }
    if Contains(u, p) { ContainsPart(u, [c] + v, p); assert s == u + ([c] + v); }
    if Contains(v, p) { ContainsPart(u + [c], v, p); }
  }

  lemma ContainsPart(u: string, v: string, p: string)
    requires p != "" && (Contains(u, p) || Contains(v, p))
    ensures Contains(u + v, p)
  {
    FindMeets(u + v, p);
    if Contains(u, p) {
      FindMeets(u, p);
      var i := Find(u, p).value;
      assert (u + v)[i..] == u[i..] + v;
      assert At(u + v, p, i);
    } else {
      FindMeets(v, p);
      var i := Find(v, p).value;
      assert (u + v)[|u| + i..] == v[i..];
      assert At(u + v, p, |u| + i);
    }
  }

  /** What occurs in a slice occurs in the whole. */
  lemma ContainsSlice(s: string, i: nat, j: nat, p: string)
    requires p != "" && i <= j <= |s| && Contains(s[i..j], p)
    ensures Contains(s, p)
  {
    FindMeets(s[i..j], p); FindMeets(s, p);
    var k := Find(s[i..j], p).value;
    assert s[i..j][k..] <= s[i + k..];
    assert At(s, p, i + k);
  }

  // ----- Replacing, splitting and joining -----

  function Replace(s: string, p: string, r: string): string
    requires p != ""
  {
    if s == "" then ""
    else if p <= s then r + Replace(s[|p|..], p, r)
    else [s[0]] + Replace(s[1..], p, r)
  }

  function Split(s: string, p: string): (parts: seq<string>)
    requires p != ""
    ensures parts != []
  {
    if s == "" then [""]
    else if p <= s then [""] + Split(s[|p|..], p)
    else ConsHead(s[0], Split(s[1..], p))
  }

  function ConsHead(c: char, parts: seq<string>): (r: seq<string>)
    requires parts != []
    ensures r != []
  {
    [[c] + parts[0]] + parts[1..]
  }

  function Join(parts: seq<string>, sep: string): string {
    if parts == [] then ""
    else if |parts| == 1 then parts[0]
    else parts[0] + sep + Join(parts[1..], sep)
  }

  lemma JoinConsHead(c: char, parts: seq<string>, sep: string)
    requires parts != []
    ensures Join(ConsHead(c, parts), sep) == [c] + Join(parts, sep)
  {
    var r := ConsHead(c, parts);
    assert r[0] == [c] + parts[0] && r[1..] == parts[1..];
    if |parts| > 1 {
      assert [c] + parts[0] + sep + Join(parts[1..], sep) == [c] + (parts[0] + sep + Join(parts[1..], sep));
    }
  }

  lemma JoinSplitStep(parts: seq<string>, sep: string)
    requires parts != []
    ensures Join([""] + parts, sep) == sep + Join(parts, sep)
  {
    assert ([""] + parts)[1..] == parts;
    assert "" + sep + Join(parts, sep) == sep + Join(parts, sep);
  }

  /** Splitting and rejoining replaces the separator, so with the same separator
      it gives the string back. */
  lemma {:induction false} JoinSplit(s: string, p: string, r: string)
    requires p != ""
    ensures Join(Split(s, p), r) == Replace(s, p, r)
  {
    if s == "" {
    } else if p <= s {
      JoinSplit(s[|p|..], p, r);
      JoinSplitStep(Split(s[|p|..], p), r);
    } else {
      JoinSplit(s[1..], p, r);
      JoinConsHead(s[0], Split(s[1..], p), r);
    }
  }

  lemma {:induction false} ReplaceSame(s: string, p: string)
    requires p != ""
    ensures Replace(s, p, p) == s
  {
    if s == "" {
    } else if p <= s {
      ReplaceSame(s[|p|..], p);
      assert p + s[|p|..] == s;
    } else {
      ReplaceSame(s[1..], p);
      assert [s[0]] + s[1..] == s;
    }
  }

  lemma {:induction false} ReplaceSkip(u: string, s: string, p: string, r: string)
    requires p != "" && Absent(p[0], u)
    ensures Replace(u + s, p, r) == u + Replace(s, p, r)
  {
    if u == "" {
      assert u + s == s;
    } else {
      assert (u + s)[1..] == u[1..] + s && (u + s)[0] == u[0];
      ReplaceSkip(u[1..], s, p, r);
    }
  }

  /** A prefix that avoids the replacement's first character was there before. */
  lemma {:induction false} UnreplacedPrefix(s: string, p: string, r: string, q: string)
    requires p != "" && r != "" && Absent(r[0], q) && q <= Replace(s, p, r)
    ensures q <= s
  {
    if q != "" {
      assert q[0] == Replace(s, p, r)[0];
      assert Replace(s, p, r)[1..] == Replace(s[1..], p, r);
      UnreplacedPrefix(s[1..], p, r, q[1..]);
    }
  }

  /** No piece of a split contains the separator. */
  lemma {:induction false} SplitPieces(s: string, p: string, n: nat)
    requires p != "" && n < |Split(s, p)|
    ensures !Contains(Split(s, p)[n], p)
    ensures exists i, j :: 0 <= i <= j <= |s| && Split(s, p)[n] == s[i..j]
    ensures Split(s, p)[0] <= s
  {
    if s == "" {
      assert s[0..0] == "";
    } else if p <= s {
      if n == 0 {
        assert s[0..0] == "";
      } else {
        SplitPieces(s[|p|..], p, n - 1);
        var i, j :| 0 <= i <= j <= |s[|p|..]| && Split(s[|p|..], p)[n - 1] == s[|p|..][i..j];
        assert s[|p|..][i..j] == s[|p| + i..|p| + j];
      }
    } else {
      var t := Split(s[1..], p);
      if n == 0 {
        SplitPieces(s[1..], p, 0);
        var h := [s[0]] + t[0];
        assert h <= s by { assert s == [s[0]] + s[1..]; }
        assert h == s[0..|h|];
        assert h[1..] == t[0];
        assert !(p <= h);
      } else {
        SplitPieces(s[1..], p, n);
        SplitPieces(s[1..], p, 0);
        var i, j :| 0 <= i <= j <= |s[1..]| && t[n] == s[1..][i..j];
        assert s[1..][i..j] == s[1 + i..1 + j];
        assert [s[0]] + t[0] <= s by { assert s == [s[0]] + s[1..]; }
      }
    }
  }

  // ----- Replacing around characters the pattern does not have -----

  /** A character outside the pattern separates the two halves of a replacement. */
  lemma {:induction false} ReplaceAcross(u: string, c: char, v: string, p: string, r: string)
    requires p != "" && Absent(c, p)
    ensures Replace(u + [c] + v, p, r) == Replace(u, p, r) + [c] + Replace(v, p, r)
    decreases |u|
  {
    var s := u + [c] + v;
    if u == "" {
      assert s[0] == c && s[1..] == v;
    } else if p <= s {
      PrefixAcross(u, c, v, p);
      assert s[|p|..] == u[|p|..] + [c] + v;
      ReplaceAcross(u[|p|..], c, v, p, r);
      assert r + (Replace(u[|p|..], p, r) + [c] + Replace(v, p, r)) == r + Replace(u[|p|..], p, r) + [c] + Replace(v, p, r);
    } else {
      assert s[..|u|] == u;
      assert s[1..] == u[1..] + [c] + v && s[0] == u[0];
      ReplaceAcross(u[1..], c, v, p, r);
      assert [u[0]] + (Replace(u[1..], p, r) + [c] + Replace(v, p, r)) == [u[0]] + Replace(u[1..], p, r) + [c] + Replace(v, p, r);
    }
  }

  lemma PrefixAcross(u: string, c: char, v: string, p: string)
    requires Absent(c, p) && p <= u + [c] + v
    ensures p <= u
  {
    var s := u + [c] + v;
    assert forall i :: 0 <= i < |p| ==> p[i] == s[i];
    assert s[|u|] == c;
    assert s[..|u|] == u;
  }

  lemma {:induction false} ReplaceAbsent(s: string, p: string, r: string)
    requires p != ""
    ensures !Contains(s, p) ==> Replace(s, p, r) == s
    ensures |r| < |p| ==> |Replace(s, p, r)| <= |s|
    ensures |r| < |p| && Contains(s, p) ==> |Replace(s, p, r)| < |s|
  {
    if s == "" {
    } else if p <= s {
      ReplaceAbsent(s[|p|..], p, r);
    } else {
      ReplaceAbsent(s[1..], p, r);
      assert [s[0]] + s[1..] == s;
    }
  }

  /** A pattern that cannot start in the replacement occurs only where it did. */
  lemma {:induction false} ReplaceKeepsOut(s: string, p: string, r: string, q: string)
    requires p != "" && r != "" && q != "" && Absent(q[0], r) && Absent(r[0], q) && !Contains(s, q)
    ensures !Contains(Replace(s, p, r), q)
  {
    if s == "" {
    } else if p <= s {
      ContainsTail(s, |p|, q);
      ReplaceKeepsOut(s[|p|..], p, r, q);
      FindSkip(r, Replace(s[|p|..], p, r), q);
    } else {
      ContainsTail(s, 1, q);
      ReplaceKeepsOut(s[1..], p, r, q);
      var t := Replace(s, p, r);
      assert t[1..] == Replace(s[1..], p, r);
      if q <= t { UnreplacedPrefix(s, p, r, q); }
    }
  }

  lemma ContainsTail(s: string, i: nat, q: string)
    requires q != "" && i <= |s| && !Contains(s, q)
    ensures !Contains(s[i..], q)
  {
    assert s[i..] == s[i..|s|];
    if Contains(s[i..], q) { ContainsSlice(s, i, |s|, q); }
  }

  /** A pattern survives the loss of ends it shares no character with. */
  lemma ContainsMiddle(l: string, m: string, r: string, p: string)
    requires p != "" && Contains(l + m + r, p)
    requires forall i :: 0 <= i < |l| ==> Absent(l[i], p)
    requires forall i :: 0 <= i < |r| ==> Absent(r[i], p)
    ensures Contains(m, p)
  {
    assert l + m + r == l + (m + r);
    NotAmong(l, p);
    FindSkip(l, m + r, p);
    if r != "" {
      assert m + r == m + [r[0]] + r[1..];
      ContainsAcross(m, r[0], r[1..], p);
      NotAmong(r[1..], p);
      FindSkip(r[1..], "", p);
      assert r[1..] + "" == r[1..];
    } else {
      assert m + r == m;
    }
  }

  lemma NotAmong(l: string, p: string)
    requires p != "" && forall i :: 0 <= i < |l| ==> Absent(l[i], p)
    ensures Absent(p[0], l)
  {
  }

  lemma StripKeepsIn(s: string, k: Class, p: string)
    requires p != "" && Contains(s, p) && forall i :: 0 <= i < |p| ==> !k.Has(p[i])
    ensures Contains(Strip(s, k), p)
  {
    var l, r := StripParts(s, k);
    ContainsMiddle(l, Strip(s, k), r, p);
  }

  lemma {:induction false} SplitKeepsIn(s: string, c: char, p: string) returns (n: nat)
    requires p != "" && Absent(c, p) && Contains(s, p)
    ensures n < |Split(s, [c])| && Contains(Split(s, [c])[n], p)
  {
    if [c] <= s {
      assert s == "" + [c] + s[1..];
      ContainsAcross("", c, s[1..], p);
      FindMeets("", p);
      n := SplitKeepsIn(s[1..], c, p);
      n := n + 1;
    } else {
      SplitPieces(s, [c], 0);
      var t := Split(s[1..], [c]);
      if p <= s {
        n := 0;
        HeadKeepsIn(s, c, p);
      } else {
        n := SplitKeepsIn(s[1..], c, p);
        if n == 0 { ContainsCons(s[0], t[0], p); }
      }
    }
  }

  lemma {:induction false} HeadKeepsIn(s: string, c: char, p: string)
    requires p != "" && Absent(c, p) && p <= s
    ensures p <= Split(s, [c])[0] && Contains(Split(s, [c])[0], p)
  {
    if |p| == 1 {
      assert s[0] == p[0];
    } else {
      assert s[0] == p[0] != c;
      assert s[1..][..|p| - 1] == p[1..];
      HeadKeepsIn(s[1..], c, p[1..]);
      assert p == [p[0]] + p[1..];
    }
    assert p <= Split(s, [c])[0];
  }

  lemma LongKeepsOut(s: string, p: string)
    requires |p| > |s|
    ensures !Contains(s, p)
  {
    var i := Occurrence(s, p);
  }
}
