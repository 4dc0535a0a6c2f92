/** How often a character occurs in a text, and what trimming, cutting, joining
    and replacing do to that number. */
module Counting {
  import opened Text

  function Count(c: char, s: string): nat {
    if s == "" then 0 else (if s[0] == c then 1 else 0) + Count(c, s[1..])
  }

  function CountAll(c: char, parts: seq<string>): nat {
    if parts == [] then 0 else Count(c, parts[0]) + CountAll(c, parts[1..])
  }

  lemma {:induction false} CountAppend(c: char, a: string, b: string)
    ensures Count(c, a + b) == Count(c, a) + Count(c, b)
  {
    if a == "" {
      assert a + b == b;
    } else {
      assert (a + b)[1..] == a[1..] + b;
      CountAppend(c, a[1..], b);
    }
  }

  lemma {:induction false} CountNone(c: char, s: string)
    requires Absent(c, s)
    ensures Count(c, s) == 0
  {
    if s != "" { CountNone(c, s[1..]); }
  }

  lemma {:induction false} SomeCounted(c: char, s: string)
    ensures Absent(c, s) || Count(c, s) > 0
  {
    if s != "" { SomeCounted(c, s[1..]); }
  }

  lemma CountMiddle(c: char, l: string, m: string, r: string)
    requires Absent(c, l) && Absent(c, r)
    ensures Count(c, l + m + r) == Count(c, m)
  {
    CountAppend(c, l + m, r);
    CountAppend(c, l, m);
    CountNone(c, l); CountNone(c, r);
  }

  lemma CountStrip(c: char, s: string, k: Class)
    requires !k.Has(c)
    ensures Count(c, Strip(s, k)) == Count(c, s)
  {
    var l, r := StripParts(s, k);
    CountMiddle(c, l, Strip(s, k), r);
  }

  lemma CountStripStart(c: char, s: string, k: Class)
    requires !k.Has(c)
    ensures Count(c, StripStart(s, k)) == Count(c, s)
  {
    var i := StripStartCut(s, k);
    assert s == s[..i] + s[i..] + "";
    CountMiddle(c, s[..i], s[i..], "");
  }

  lemma CountStripEnd(c: char, s: string, k: Class)
    requires !k.Has(c)
    ensures Count(c, StripEnd(s, k)) == Count(c, s)
  {
    var j := StripEndCut(s, k);
    assert s == "" + s[..j] + s[j..];
    CountMiddle(c, "", s[..j], s[j..]);
  }

  lemma CountTrimValue(c: char, s: string)
    requires !IsPeel(c)
    ensures Count(c, TrimValue(s)) == Count(c, s)
  {
    CountStrip(c, s, Space);
    CountStrip(c, Trim(s), One('"'));
    CountStrip(c, Strip(Trim(s), One('"')), One('\''));
  }

  lemma {:induction false} CountReplaceSame(c: char, s: string, p: string, r: string)
    requires p != "" && Count(c, p) == Count(c, r)
    ensures Count(c, Replace(s, p, r)) == Count(c, s)
  {
    if s == "" {
    } else if p <= s {
      CountReplaceSame(c, s[|p|..], p, r);
      assert s == p + s[|p|..];
      CountAppend(c, p, s[|p|..]);
      CountAppend(c, r, Replace(s[|p|..], p, r));
    } else {
      CountReplaceSame(c, s[1..], p, r);
      assert Replace(s, p, r)[1..] == Replace(s[1..], p, r);
    }
  }

  /** Replacing by a text with fewer of a character leaves fewer. */
  lemma {:induction false} CountReplaceFewer(c: char, s: string, p: string, r: string)
    requires p != "" && Count(c, p) > Count(c, r)
    ensures Count(c, Replace(s, p, r)) <= Count(c, s)
    ensures Contains(s, p) ==> Count(c, Replace(s, p, r)) < Count(c, s)
  {
    if s == "" {
    } else if p <= s {
      CountReplaceFewer(c, s[|p|..], p, r);
      assert s == p + s[|p|..];
      CountAppend(c, p, s[|p|..]);
      CountAppend(c, r, Replace(s[|p|..], p, r));
    } else {
      CountReplaceFewer(c, s[1..], p, r);
      assert Replace(s, p, r)[1..] == Replace(s[1..], p, r);
    }
  }

  /** Each cut takes one separator out. */
  lemma {:induction false} CountSplit(c: char, s: string, p: string)
    requires p != ""
    ensures CountAll(c, Split(s, p)) + (|Split(s, p)| - 1) * Count(c, p) == Count(c, s)
  {
    if s == "" {
      assert CountAll(c, [""]) == 0;
    } else if p <= s {
      var rest := Split(s[|p|..], p);
      CountSplit(c, s[|p|..], p);
      assert s == p + s[|p|..];
      CountAppend(c, p, s[|p|..]);
      assert ([""] + rest)[1..] == rest;
      assert (|rest| - 1) * Count(c, p) + Count(c, p) == |rest| * Count(c, p);
    } else {
      CountSplit(c, s[1..], p);
      CountConsHead(c, s[0], Split(s[1..], p));
    }
  }

  lemma CountConsHead(c: char, head: char, parts: seq<string>)
    requires parts != []
    ensures CountAll(c, ConsHead(head, parts)) == CountAll(c, parts) + if head == c then 1 else 0
  {
    var r := ConsHead(head, parts);
    assert r[1..] == parts[1..];
    assert r[0][1..] == parts[0];
  }

  /** The separator is known not to have the character. */
  lemma {:induction false} CountJoin(c: char, parts: seq<string>, sep: string)
    requires parts != [] && Absent(c, sep)
    ensures Count(c, Join(parts, sep)) == CountAll(c, parts)
  {
    CountNone(c, sep);
    if |parts| > 1 {
      CountJoin(c, parts[1..], sep);
      CountAppend(c, parts[0] + sep, Join(parts[1..], sep));
      CountAppend(c, parts[0], sep);
    } else {
      assert parts[1..] == [];
    }
  }

  lemma {:induction false} CountSame(c: char, a: seq<string>, b: seq<string>)
    requires |a| == |b| && forall i :: 0 <= i < |a| ==> Count(c, a[i]) == Count(c, b[i])
    ensures CountAll(c, a) == CountAll(c, b)
  {
    if a != [] { CountSame(c, a[1..], b[1..]); }
  }
}
