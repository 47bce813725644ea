/** Sequences of items whose encodings can be told apart from the left. */
module PrefixCodes {
  import opened Words
  import opened Cursors

  function Concat<T>(encode: T -> seq<Byte>, items: seq<T>): seq<Byte> {
    if items == [] then [] else encode(items[0]) + Concat(encode, items[1..])
  }

  predicate Starts(e: seq<Byte>, s: seq<Byte>) { e <= s }

  lemma {:induction false} StartsTwice(a: seq<Byte>, b: seq<Byte>, whole: seq<Byte>, s: seq<Byte>)
    requires whole == a + b && whole <= s
    ensures a <= s && b <= s[|a|..]
  {
    assert s[..|a|] == whole[..|a|] == a;
    assert s[|a|..][..|b|] == whole[|a|..] == b;
  }

  /** No two legal items have encodings that start one and the same input. */
  ghost predicate PrefixFree<T(!new)>(encode: T -> seq<Byte>, legal: T -> bool) {
    forall x, y, s :: legal(x) && legal(y) && Starts(encode(x), s) && Starts(encode(y), s) ==> x == y
  }

  predicate AllLegal<T>(legal: T -> bool, items: seq<T>) {
    forall i | 0 <= i < |items| :: legal(items[i])
  }

  lemma {:induction false} AllLegalAppend<T>(legal: T -> bool, items: seq<T>, x: T)
    requires AllLegal(legal, items) && legal(x)
    ensures AllLegal(legal, items + [x])
  {
  }

  lemma {:induction false} ConcatAppend<T>(encode: T -> seq<Byte>, items: seq<T>, x: T)
    ensures Concat(encode, items + [x]) == Concat(encode, items) + encode(x)
  {
    if items == [] {
      assert items + [x] == [x];
    } else {
      ConcatAppend(encode, items[1..], x);
      assert (items + [x])[1..] == items[1..] + [x];
    }
  }

  lemma {:induction false} ConcatNext<T>(encode: T -> seq<Byte>, items: seq<T>, i: nat)
    requires i < |items|
    ensures Concat(encode, items[..i + 1]) == Concat(encode, items[..i]) + encode(items[i])
  {
    assert items[..i + 1] == items[..i] + [items[i]];
    ConcatAppend(encode, items[..i], items[i]);
  }

  /** Reading one more item extends what has been read. */
  lemma {:induction false} ConcatExtends<T>(encode: T -> seq<Byte>, items: seq<T>, x: T, s: seq<Byte>)
    requires Concat(encode, items) <= s && encode(x) <= s[|Concat(encode, items)|..]
    ensures Concat(encode, items + [x]) <= s
    ensures |Concat(encode, items + [x])| == |Concat(encode, items)| + |encode(x)|
    ensures s[|Concat(encode, items + [x])|..] == s[|Concat(encode, items)|..][|encode(x)|..]
  {
    ConcatAppend(encode, items, x);
    var k, m := |Concat(encode, items)|, |encode(x)|;
    assert s == s[..k] + s[k..];
    assert s[k + m..] == s[k..][m..];
  }

  lemma {:induction false} ConcatSplit<T>(encode: T -> seq<Byte>, items: seq<T>, k: nat)
    requires k <= |items|
    ensures Concat(encode, items) == Concat(encode, items[..k]) + Concat(encode, items[k..])
  {
    if k == 0 {
      assert items[0..] == items;
    } else {
      ConcatSplit(encode, items[1..], k - 1);
      assert items[..k][1..] == items[1..][..k - 1] && items[k..] == items[1..][k - 1..];
    }
  }

  /** An input fixes the items that start it, one by one. */
  lemma {:induction false} SamePrefix<T(!new)>(encode: T -> seq<Byte>, legal: T -> bool, xs: seq<T>, ys: seq<T>, s: seq<Byte>)
    requires PrefixFree(encode, legal) && AllLegal(legal, xs) && AllLegal(legal, ys)
    requires |xs| <= |ys|
    requires Concat(encode, xs) <= s && Concat(encode, ys) <= s
    ensures ys[..|xs|] == xs
    decreases |xs|
  {
    if xs != [] {
      var x := xs[0];
      assert legal(x) && legal(ys[0]) && Starts(encode(x), s) && Starts(encode(ys[0]), s);
      var tail := s[|encode(x)|..];
      SamePrefix(encode, legal, xs[1..], ys[1..], tail);
      assert ys[..|xs|] == [ys[0]] + ys[1..][..|xs| - 1];
    }
  }

  /** When `done` has been read, any longer list of items that starts the input continues with its next item. */
  lemma {:induction false} NextItemFollows<T(!new)>(encode: T -> seq<Byte>, legal: T -> bool, done: seq<T>, items: seq<T>, s: seq<Byte>)
    requires PrefixFree(encode, legal) && AllLegal(legal, done) && AllLegal(legal, items)
    requires |done| < |items|
    requires Concat(encode, done) <= s && Concat(encode, items) <= s
    ensures items[..|done|] == done
    ensures legal(items[|done|]) && Starts(encode(items[|done|]), s[|Concat(encode, done)|..])
  {
    var k := |done|;
    SamePrefix(encode, legal, done, items, s);
    ConcatSplit(encode, items, k);
    assert items[k..] == [items[k]] + items[k + 1..];
  }

  /** A counted list: its length, then its items. */
  function EncodeList<T>(encode: T -> seq<Byte>, items: seq<T>): seq<Byte> {
    EncodeUleb(|items|) + Concat(encode, items)
  }

  /** An input fixes the length of the counted list that starts it, and its items one by one. */
  lemma {:induction false} ListForced<T(!new)>(encode: T -> seq<Byte>, legal: T -> bool, done: seq<T>, count: nat, items: seq<T>, s: seq<Byte>)
    requires PrefixFree(encode, legal) && AllLegal(legal, done) && AllLegal(legal, items)
    requires EncodeUleb(count) <= s && |done| <= count
    requires Concat(encode, done) <= s[|EncodeUleb(count)|..]
    requires EncodeList(encode, items) <= s
    ensures |items| == count && items[..|done|] == done
    ensures |done| < count ==>
              legal(items[|done|]) && Starts(encode(items[|done|]), s[|EncodeUleb(count)|..][|Concat(encode, done)|..])
  {
    StartsTwice(EncodeUleb(|items|), Concat(encode, items), EncodeList(encode, items), s);
    UlebPrefixFree(|items|, count, s);
    var tail := s[|EncodeUleb(count)|..];
    SamePrefix(encode, legal, done, items, tail);
    if |done| < count {
      NextItemFollows(encode, legal, done, items, tail);
    }
  }

  /** If nothing legal follows the items read so far, the input starts with no counted list at all. */
  lemma {:induction false} ListRefused<T(!new)>(encode: T -> seq<Byte>, legal: T -> bool, done: seq<T>, count: nat, s: seq<Byte>)
    requires PrefixFree(encode, legal) && AllLegal(legal, done)
    requires EncodeUleb(count) <= s && |done| < count
    requires Concat(encode, done) <= s[|EncodeUleb(count)|..]
    requires forall x | legal(x) :: !Starts(encode(x), s[|EncodeUleb(count)|..][|Concat(encode, done)|..])
    ensures forall items: seq<T> | AllLegal(legal, items) :: !Starts(EncodeList(encode, items), s)
  {
    forall items: seq<T> | AllLegal(legal, items)
      ensures !Starts(EncodeList(encode, items), s)
    {
      if Starts(EncodeList(encode, items), s) {
        ListForced(encode, legal, done, count, items, s);
      }
    }
  }

  /** The same when the length itself is refused. */
  lemma {:induction false} CountRefused<T(!new)>(encode: T -> seq<Byte>, maximum: nat, s: seq<Byte>)
    requires forall n: nat | n <= maximum && n < TWO_32 :: !Starts(EncodeUleb(n), s)
    ensures forall items: seq<T> | |items| <= maximum && |items| < TWO_32 :: !Starts(EncodeList(encode, items), s)
  {
    forall items: seq<T> | |items| <= maximum && |items| < TWO_32
      ensures !Starts(EncodeList(encode, items), s)
    {
      if Starts(EncodeList(encode, items), s) {
        StartsTwice(EncodeUleb(|items|), Concat(encode, items), EncodeList(encode, items), s);
      }
    }
  }
}
