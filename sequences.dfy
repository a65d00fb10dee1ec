/**
 * Generic facts about sequences that the string and framer proofs use:
 * the first and last parts of a non-empty sequence, what replacing or
 * prepending a head does to them, and regrouping of concatenations.
 */
module Sequences {

  /** All but the last element of a non-empty sequence. */
  function Init<T>(s: seq<T>): seq<T>
    requires |s| > 0
  {
    s[..|s| - 1]
  }

  /** The last element of a non-empty sequence. */
  function Last<T>(s: seq<T>): T
    requires |s| > 0
  {
    s[|s| - 1]
  }

  /** Dropping the last element commutes with prepending one. */
  lemma InitCons<T>(x: T, s: seq<T>)
    requires |s| > 0
    ensures Init([x] + s) == [x] + Init(s)
  {
  }

  /** The last element of a concatenation with a non-empty second part. */
  lemma LastAppend<T>(a: seq<T>, b: seq<T>)
    requires |b| > 0
    ensures Last(a + b) == Last(b)
  {
  }

  /** Appending two elements one at a time or together. */
  lemma AppendPair<T>(s: seq<T>, a: T, b: T)
    ensures s + [a] + [b] == s + [a, b]
  {
  }

  /** Regrouping a three-part concatenation. */
  lemma Associate3<T>(a: seq<T>, b: seq<T>, c: seq<T>)
    ensures (a + b) + c == a + (b + c)
  {
  }

  /** Regrouping a four-part concatenation. */
  lemma Associate4<T>(a: seq<T>, b: seq<T>, c: seq<T>, d: seq<T>)
    ensures a + b + c + d == a + (b + c + d)
  {
  }

  /** Replacing the only element of a one-element list. */
  lemma SingleHead<T>(h: T, s: seq<T>, t: seq<T>)
    requires |s| == 1
    ensures Last(s) == s[0] && Init(s) + t == t
    ensures Last([h] + s[1..]) == h && Init([h] + s[1..]) == []
  {
    assert Init(s) == [];
    assert [h] + s[1..] == [h];
  }

  /** Prepending an element to a non-empty list leaves its last element and extends its initial part. */
  lemma PrependHead<T>(h: T, s: seq<T>, t: seq<T>)
    requires |s| > 0
    ensures Last([h] + s) == Last(s)
    ensures Init([h] + s) + t == [h] + (Init(s) + t)
  {
    InitCons(h, s);
  }

  /** Replacing the head of a list of two or more leaves its last element and shifts its initial part. */
  lemma ReplaceHead<T>(h: T, s: seq<T>, t: seq<T>)
    requires |s| > 1
    ensures Last([h] + s[1..]) == Last(s)
    ensures (Init(s) + t)[0] == s[0]
    ensures Init([h] + s[1..]) + t == [h] + (Init(s) + t)[1..]
  {
    assert Init([h] + s[1..]) == [h] + Init(s)[1..];
    assert (Init(s) + t)[1..] == Init(s)[1..] + t;
  }
}
