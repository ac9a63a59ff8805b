/** Lists of RLP items read one after the other: counting them, skipping over them, and
    finding where each ends. */
module RlpItems {
  import opened Bytes
  import opened Rlp
  import opened Wrappers

  function Concat(items: seq<seq<Byte>>): (out: seq<Byte>)
    decreases |items|
  {
    if items == [] then [] else items[0] + Concat(items[1..])
  }

  ghost predicate AllItems(items: seq<seq<Byte>>)
    decreases |items|
  {
    items != [] ==> IsItem(items[0]) && AllItems(items[1..])
  }

  lemma {:induction false} ItemsAppend(a: seq<seq<Byte>>, b: seq<seq<Byte>>)
    requires AllItems(a) && AllItems(b)
    ensures AllItems(a + b)
    decreases |a|
  {
    if a == [] {
      assert a + b == b;
    } else {
      ItemsAppend(a[1..], b);
      assert (a + b)[1..] == a[1..] + b;
    }
  }

  lemma {:induction false} ItemsDrop(items: seq<seq<Byte>>, k: nat)
    requires AllItems(items) && k <= |items|
    ensures AllItems(items[k..])
    decreases k
  {
    if k > 0 {
      ItemsDrop(items[1..], k - 1);
      assert items[1..][k - 1..] == items[k..];
    } else {
      assert items[0..] == items;
    }
  }

  lemma Regroup(a: seq<seq<Byte>>, b: seq<seq<Byte>>, c: seq<seq<Byte>>)
    ensures a + b + c == a + (b + c)
  {
  }

  lemma TakeFirst(a: seq<seq<Byte>>, b: seq<seq<Byte>>)
    ensures (a + b)[..|a|] == a
  {
  }

  lemma DropTwo(a: seq<seq<Byte>>, x: seq<Byte>, y: seq<Byte>, z: seq<Byte>)
    ensures (a + [x, y, z])[..|a| + 1] == a + [x]
  {
  }

  lemma ConcatStep(item: seq<Byte>, items: seq<seq<Byte>>)
    ensures Concat([item] + items) == item + Concat(items)
  {
    assert ([item] + items)[1..] == items;
  }

  lemma ConcatThree(a: seq<Byte>, b: seq<Byte>, c: seq<Byte>, more: seq<seq<Byte>>)
    ensures Concat([a, b, c] + more) == a + (b + (c + Concat(more)))
  {
    ConcatStep(c, more);
    ConcatStep(b, [c] + more);
    ConcatStep(a, [b] + ([c] + more));
    assert [a, b, c] + more == [a] + ([b] + ([c] + more));
  }

  lemma ThreeItems(a: seq<Byte>, b: seq<Byte>, c: seq<Byte>)
    requires IsItem(a) && IsItem(b) && IsItem(c)
    ensures AllItems([a, b, c])
  {
    assert [c][1..] == [] && AllItems([c]);
    assert [b, c][1..] == [c] && AllItems([b, c]);
    assert [a, b, c][1..] == [b, c];
  }

  lemma {:induction false} ConcatSplit(items: seq<seq<Byte>>, k: nat)
    requires k <= |items|
    ensures Concat(items) == Concat(items[..k]) + Concat(items[k..])
    decreases k
  {
    if k == 0 {
      assert items[0..] == items;
    } else {
      ConcatSplit(items[1..], k - 1);
      assert items[..k][1..] == items[1..][..k - 1];
      assert items[1..][k - 1..] == items[k..];
    }
  }

  lemma {:induction false} ItemWithin(items: seq<seq<Byte>>, i: nat)
    requires i < |items|
    ensures |items[i]| <= |Concat(items)|
    decreases i
  {
    if i > 0 {
      ItemWithin(items[1..], i - 1);
    }
  }

  /** How many whole items stand in front, up to the first that cannot be read. */
  function CountItems(body: seq<Byte>): nat
    decreases |body|
  {
    if body == [] then 0
    else
      match SkipItem(body)
      case None => 0
      case Some(rest) => 1 + CountItems(rest)
  }

  method CountRemaining(body: seq<Byte>) returns (count: nat)
    ensures count == CountItems(body)
  {
    count := 0;
    var rest := body;
    while rest != []
      invariant count + CountItems(rest) == CountItems(body)
      decreases |rest|
    {
      var next := SkipItem(rest);
      if next.None? {
        break;
      }
      rest := next.value;
      count := count + 1;
    }
  }

  /** The cursor past `n` items, or past as many as can be read. */
  function SkipItems(body: seq<Byte>, n: nat): (rest: seq<Byte>)
    ensures |rest| <= |body|
  {
    if n == 0 || body == [] then body
    else
      match SkipItem(body)
      case None => body
      case Some(rest) => SkipItems(rest, n - 1)
  }

  method SkipUpTo(body: seq<Byte>, n: nat) returns (cursor: seq<Byte>)
    ensures cursor == SkipItems(body, n)
  {
    cursor := body;
    for i := 0 to n
      invariant SkipItems(cursor, n - i) == SkipItems(body, n)
    {
      if cursor == [] {
        break;
      }
      var next := SkipItem(cursor);
      if next.None? {
        break;
      }
      cursor := next.value;
    }
  }

  /** How much is left after each item; None if some item cannot be read. */
  function LeftAfter(cursor: seq<Byte>): Option<seq<nat>>
    decreases |cursor|
  {
    if cursor == [] then Some([])
    else
      match SkipItem(cursor)
      case None => None
      case Some(rest) => Prepend(|rest|, LeftAfter(rest))
  }

  function Prepend(x: nat, more: Option<seq<nat>>): Option<seq<nat>> {
    match more
    case None => None
    case Some(xs) => Some([x] + xs)
  }

  function AppendTo(xs: seq<nat>, more: Option<seq<nat>>): Option<seq<nat>> {
    match more
    case None => None
    case Some(ys) => Some(xs + ys)
  }

  lemma AppendPrepend(xs: seq<nat>, x: nat, more: Option<seq<nat>>)
    ensures AppendTo(xs, Prepend(x, more)) == AppendTo(xs + [x], more)
  {
    if more.Some? {
      assert xs + ([x] + more.value) == xs + [x] + more.value;
    }
  }

  lemma LeftStep(cursor: seq<Byte>, rest: seq<Byte>)
    requires cursor != [] && SkipItem(cursor) == Some(rest)
    ensures LeftAfter(cursor) == Prepend(|rest|, LeftAfter(rest))
  {
  }

  lemma PrependAt(x: nat, more: Option<seq<nat>>, i: nat)
    requires more.Some? && i <= |more.value|
    ensures Prepend(x, more).Some? && |Prepend(x, more).value| == 1 + |more.value|
    ensures Prepend(x, more).value[i] == if i == 0 then x else more.value[i - 1]
  {
  }

  lemma {:induction false} LeftIsWithin(cursor: seq<Byte>, i: nat)
    requires LeftAfter(cursor).Some? && i < |LeftAfter(cursor).value|
    ensures LeftAfter(cursor).value[i] < |cursor|
    decreases |cursor|
  {
    var rest := SkipItem(cursor).value;
    LeftStep(cursor, rest);
    PrependAt(|rest|, LeftAfter(rest), i);
    if i > 0 {
      LeftIsWithin(rest, i - 1);
    }
  }

  /** Where each item ends, counted from the start of a body of `total` bytes. */
  function EndsOf(total: nat, left: Option<seq<nat>>): Option<seq<int>> {
    match left
    case None => None
    case Some(xs) => Some(Complement(total, xs))
  }

  function Complement(total: nat, left: seq<nat>): (ends: seq<int>)
    ensures |ends| == |left|
  {
    seq(|left|, i requires 0 <= i < |left| => total - left[i])
  }

  lemma ComplementSnoc(total: nat, left: seq<nat>, x: nat)
    ensures Complement(total, left + [x]) == Complement(total, left) + [total - x]
  {
  }

  lemma LeftAtTheEnd(left: seq<nat>, cursor: seq<Byte>)
    requires cursor == [] || SkipItem(cursor).None?
    ensures AppendTo(left, LeftAfter(cursor)) == if cursor == [] then Some(left) else None
  {
    assert left + [] == left;
  }

  /** The loop over the items. */
  method ItemEnds(body: seq<Byte>) returns (ends: Option<seq<int>>)
    ensures ends == EndsOf(|body|, LeftAfter(body))
  {
    var found: seq<int> := [];
    ghost var left: seq<nat> := [];
    var cursor := body;
    AppendNothing(left, LeftAfter(body));
    while cursor != []
      invariant found == Complement(|body|, left)
      invariant LeftAfter(body) == AppendTo(left, LeftAfter(cursor))
      decreases |cursor|
    {
      var next := SkipItem(cursor);
      if next.None? {
        LeftAtTheEnd(left, cursor);
        return None;
      }
      LeftStep(cursor, next.value);
      AppendPrepend(left, |next.value|, LeftAfter(next.value));
      ComplementSnoc(|body|, left, |next.value|);
      cursor := next.value;
      left := left + [|cursor|];
      found := found + [|body| - |cursor|];
    }
    LeftAtTheEnd(left, cursor);
    ends := Some(found);
  }

  lemma AppendNothing(xs: seq<nat>, more: Option<seq<nat>>)
    requires xs == []
    ensures AppendTo(xs, more) == more
  {
    if more.Some? {
      assert xs + more.value == more.value;
    }
  }

  // ── over well-formed lists ─────────────────────────────────────────────────

  lemma {:induction false} CountsThemAll(items: seq<seq<Byte>>)
    requires AllItems(items)
    ensures CountItems(Concat(items)) == |items|
    decreases |items|
  {
    if items != [] {
      ItemIsSkipped(items[0], Concat(items[1..]));
      CountsThemAll(items[1..]);
    }
  }

  lemma {:induction false} SkipsThem(items: seq<seq<Byte>>, n: nat)
    requires AllItems(items) && n <= |items|
    ensures SkipItems(Concat(items), n) == Concat(items[n..])
    decreases n
  {
    if n == 0 {
      assert items[0..] == items;
    } else {
      ItemIsSkipped(items[0], Concat(items[1..]));
      SkipsThem(items[1..], n - 1);
      assert items[1..][n - 1..] == items[n..];
    }
  }

  lemma {:induction false} LeftAfterEach(items: seq<seq<Byte>>, i: nat)
    requires AllItems(items) && i <= |items|
    ensures LeftAfter(Concat(items)).Some? && |LeftAfter(Concat(items)).value| == |items|
    ensures i < |items| ==> LeftAfter(Concat(items)).value[i] == |Concat(items[i + 1..])|
    decreases |items|
  {
    if items != [] {
      var rest := Concat(items[1..]);
      ItemIsSkipped(items[0], rest);
      LeftAfterEach(items[1..], if i > 0 then i - 1 else 0);
      LeftStep(Concat(items), rest);
      PrependAt(|rest|, LeftAfter(rest), if i < |items| then i else 0);
      if 0 < i < |items| {
        assert items[1..][i..] == items[i + 1..];
      }
    }
  }

  /** Cutting a body before its last items keeps what the first `n` of them are. */
  lemma PrefixOfConcat(items: seq<seq<Byte>>, n: nat)
    requires n <= |items|
    ensures |Concat(items[n..])| <= |Concat(items)|
    ensures Concat(items)[..|Concat(items)| - |Concat(items[n..])|] == Concat(items[..n])
  {
    ConcatSplit(items, n);
  }
}
