/**
 * Model of src/circular_buffer.rs: the generic ring buffer `CircularBuff<T, N>`.
 *
 * The buffer is N slots plus a read index `ri` and a write index `wi`, both in
 * [0, N). `wi == ri` means empty and no slot is reserved, so a push into a
 * buffer holding N - 1 items makes `wi` meet `ri` and the buffer reads as empty
 * again: at most N - 1 items are held, and the N-th push loses all of them.
 *
 * `Ring` is the value of one buffer and `Put`/`Get`/`PutAll` are the source's
 * operations on that value; `CircularBuff` is the object the firmware mutates
 * in place, whose methods are proved to act as those functions.
 */
module CircularBuffer {

  datatype Option<T> = None | Some(value: T)

  /** The value of a `CircularBuff<T, N>`: its N slots and its two indices. */
  datatype Ring<T> = Ring(buf: seq<T>, ri: nat, wi: nat)
  {
    /** Both indices lie in [0, N), and N >= 1 (with N == 0 the source's `len() - 1` underflows). */
    predicate Valid() {
      1 <= |buf| && ri < |buf| && wi < |buf|
    }
  }

  /** `c` reduced modulo `n`, by repeated subtraction. */
  function Wrap(c: nat, n: nat): (m: nat)
    requires 1 <= n
    ensures m <= c && m < n
    decreases c
  {
    if c < n then c else Wrap(c - n, n)
  }

  lemma {:induction false} WrapIsMod(c: nat, n: nat)
    requires 1 <= n
    ensures Wrap(c, n) == c % n
    decreases c
  {
    if c < n {
      ModOf(c, n, 0, c);
    } else {
      WrapIsMod(c - n, n);
      ModOf(c - n, n, (c - n) / n, Wrap(c, n));
      ModOf(c, n, (c - n) / n + 1, Wrap(c, n));
    }
  }

  /** One more step wraps to 0 at `n` and otherwise counts up. */
  lemma {:induction false} WrapSucc(c: nat, n: nat)
    requires 1 <= n
    ensures Wrap(c + 1, n) == if Wrap(c, n) < n - 1 then Wrap(c, n) + 1 else 0
    decreases c
  {
    if c >= n {
      WrapSucc(c - n, n);
    }
  }

  /** The index after `i` in a buffer of `n` slots: the source's compare-with-last-then-increment. */
  function Advance(i: nat, n: nat): (j: nat)
    requires i < n
    ensures j < n
    ensures j == Wrap(i + 1, n)
  {
    if i == n - 1 then 0 else i + 1
  }

  /** Number of unread items: the distance from `ri` forward to `wi`. */
  function Count<T>(r: Ring<T>): (c: nat)
    requires r.Valid()
    ensures c < |r.buf|
    ensures c == 0 <==> r.wi == r.ri
  {
    if r.ri <= r.wi then r.wi - r.ri else r.wi + |r.buf| - r.ri
  }

  /** The slot holding the k-th unread item (0 is the oldest). */
  function Slot<T>(r: Ring<T>, k: nat): (i: nat)
    requires r.Valid() && k < |r.buf|
    ensures i < |r.buf|
  {
    if r.ri + k < |r.buf| then r.ri + k else r.ri + k - |r.buf|
  }

  /** The unread items, oldest first: what successive pops return. */
  function Contents<T>(r: Ring<T>): (s: seq<T>)
    requires r.Valid()
    ensures |s| == Count(r)
    ensures forall k :: 0 <= k < |s| ==> s[k] == r.buf[Slot(r, k)]
  {
    seq(Count(r), k requires 0 <= k < Count(r) => r.buf[Slot(r, k)])
  }

  /** `put_data`: store `x` at `wi` and advance `wi`; never refuses, never looks at `ri`. */
  function Put<T>(r: Ring<T>, x: T): (r': Ring<T>)
    requires r.Valid()
    ensures r'.Valid() && |r'.buf| == |r.buf|
    ensures r'.buf == r.buf[r.wi := x]
    ensures r'.ri == r.ri
    ensures r'.wi == Wrap(r.wi + 1, |r.buf|)
  {
    r.(buf := r.buf[r.wi := x], wi := Advance(r.wi, |r.buf|))
  }

  /** `get_data`: `None` on an empty buffer, otherwise the item at `ri`, advancing `ri`. */
  function Get<T>(r: Ring<T>): (p: (Option<T>, Ring<T>))
    requires r.Valid()
    ensures p.1.Valid() && p.1.buf == r.buf && p.1.wi == r.wi
    ensures r.wi == r.ri ==> p == (None, r)
    ensures r.wi != r.ri ==> p.0 == Some(r.buf[r.ri]) && p.1.ri == Wrap(r.ri + 1, |r.buf|)
  {
    if r.wi != r.ri then (Some(r.buf[r.ri]), r.(ri := Advance(r.ri, |r.buf|))) else (None, r)
  }

  /** `put_all_data`: `put_data` on each element of `s`, first to last. */
  function PutAll<T>(r: Ring<T>, s: seq<T>): (r': Ring<T>)
    requires r.Valid()
    ensures r'.Valid() && |r'.buf| == |r.buf| && r'.ri == r.ri
    decreases |s|
  {
    if s == [] then r else Put(PutAll(r, s[..|s| - 1]), s[|s| - 1])
  }

  /** `k` successive `get_data` calls: what they return and the buffer they leave. */
  function Pops<T>(r: Ring<T>, k: nat): (p: (seq<Option<T>>, Ring<T>))
    requires r.Valid()
    ensures |p.0| == k && p.1.Valid() && p.1.buf == r.buf && p.1.wi == r.wi
    decreases k
  {
    if k == 0 then ([], r)
    else
      var (o, r1) := Get(r);
      var (os, r2) := Pops(r1, k - 1);
      ([o] + os, r2)
  }

  /** Each item wrapped in `Some`, as a sequence of successful pops returns it. */
  function Somes<T>(s: seq<T>): (os: seq<Option<T>>)
    ensures |os| == |s| && forall k :: 0 <= k < |s| ==> os[k] == Some(s[k])
  {
    seq(|s|, k requires 0 <= k < |s| => Some(s[k]))
  }

  /** The last `m` elements of `t`. */
  function Last<T>(t: seq<T>, m: nat): seq<T>
    requires m <= |t|
  {
    t[|t| - m..]
  }

  // ---------------------------------------------------------------------------
  // Modular arithmetic used by the index lemmas

  lemma MulAtLeast(d: nat, n: nat)
    requires 1 <= d
    ensures d * n >= n
  {
    if d > 1 {
      MulAtLeast(d - 1, n);
      assert d * n == (d - 1) * n + n;
    }
  }

  /** Uniqueness of the remainder: `x == q * n + r` with 0 <= r < n fixes `x % n`. */
  lemma ModOf(x: int, n: int, q: int, r: int)
    requires 1 <= n && 0 <= r < n && x == q * n + r
    ensures x % n == r
  {
    var q' := x / n;
    var d := q - q';
    assert x == q' * n + x % n;
    assert d * n == q * n - q' * n;
    if d >= 1 {
      MulAtLeast(d, n);
    } else if d <= -1 {
      MulAtLeast(-d, n);
    }
  }

  /** The count is the distance from `ri` forward to `wi`, modulo N. */
  lemma CountIsDistance<T>(r: Ring<T>)
    requires r.Valid()
    ensures Count(r) == (r.wi - r.ri) % |r.buf|
  {
    if r.ri <= r.wi {
      ModOf(r.wi - r.ri, |r.buf|, 0, Count(r));
    } else {
      ModOf(r.wi - r.ri, |r.buf|, -1, Count(r));
    }
  }

  /** The k-th unread item sits k slots after `ri`, modulo N. */
  lemma SlotIsOffset<T>(r: Ring<T>, k: nat)
    requires r.Valid() && k < |r.buf|
    ensures Slot(r, k) == (r.ri + k) % |r.buf|
  {
    if r.ri + k < |r.buf| {
      ModOf(r.ri + k, |r.buf|, 0, Slot(r, k));
    } else {
      ModOf(r.ri + k, |r.buf|, 1, Slot(r, k));
    }
  }

  // ---------------------------------------------------------------------------
  // What one push and one pop do to the unread items

  /**
   * A push appends to the unread items while fewer than N - 1 are held; the
   * push that would make N of them brings `wi` onto `ri`, and the buffer then
   * reads as empty.
   */
  lemma PutContents<T>(r: Ring<T>, x: T)
    requires r.Valid()
    ensures Contents(Put(r, x)) ==
            if Count(r) < |r.buf| - 1 then Contents(r) + [x] else []
  {
    var r' := Put(r, x);
    if Count(r) < |r.buf| - 1 {
      assert Count(r') == Count(r) + 1;
      forall k | 0 <= k < Count(r')
        ensures Contents(r')[k] == (Contents(r) + [x])[k]
      {
        assert Slot(r', k) == Slot(r, k);
        if k < Count(r) {
          assert Slot(r, k) != r.wi;
        } else {
          assert Slot(r, k) == r.wi;
        }
      }
    } else {
      assert r'.wi == r'.ri;
    }
  }

  /** A pop returns the oldest unread item and removes exactly that one; on no items it returns None. */
  lemma GetContents<T>(r: Ring<T>)
    requires r.Valid()
    ensures Get(r).0 == None <==> Contents(r) == []
    ensures Contents(r) == [] ==> Get(r).1 == r
    ensures Contents(r) != [] ==>
              Get(r).0 == Some(Contents(r)[0]) && Contents(Get(r).1) == Contents(r)[1..]
  {
    if Contents(r) != [] {
      var r' := Get(r).1;
      assert Count(r') == Count(r) - 1;
      assert Slot(r, 0) == r.ri;
      forall k | 0 <= k < Count(r')
        ensures Contents(r')[k] == Contents(r)[1..][k]
      {
        assert Slot(r', k) == Slot(r, k + 1);
      }
    }
  }

  // ---------------------------------------------------------------------------
  // Sequences of pushes and pops

  /** `put_all_data(s)` advances `wi` by |s| modulo N. */
  lemma {:induction false} PutAllWi<T>(r: Ring<T>, s: seq<T>)
    requires r.Valid()
    ensures PutAll(r, s).wi == Wrap(r.wi + |s|, |r.buf|)
    ensures PutAll(r, s).wi == (r.wi + |s|) % |r.buf|
    decreases |s|
  {
    if s != [] {
      PutAllWi(r, s[..|s| - 1]);
      WrapSucc(r.wi + |s| - 1, |r.buf|);
    }
    WrapIsMod(r.wi + |s|, |r.buf|);
  }

  /** A push adds one item, except that the N-th one empties the buffer. */
  lemma PutCount<T>(r: Ring<T>, x: T)
    requires r.Valid()
    ensures Count(Put(r, x)) == if Count(r) < |r.buf| - 1 then Count(r) + 1 else 0
  {
  }

  /** `put_all_data(s)` adds |s| items, modulo N. */
  lemma {:induction false} PutAllCount<T>(r: Ring<T>, s: seq<T>)
    requires r.Valid()
    ensures Count(PutAll(r, s)) == Wrap(Count(r) + |s|, |r.buf|)
    decreases |s|
  {
    if s != [] {
      var s0 := s[..|s| - 1];
      PutAllCount(r, s0);
      PutCount(PutAll(r, s0), s[|s| - 1]);
      WrapSucc(Count(r) + |s0|, |r.buf|);
    }
  }

  /** After `put_all_data(s)` the unread items are the newest of the old unread items followed by `s`. */
  lemma {:induction false} PutAllSuffix<T>(r: Ring<T>, s: seq<T>)
    requires r.Valid()
    ensures Count(PutAll(r, s)) <= |Contents(r) + s|
    ensures Contents(PutAll(r, s)) == Last(Contents(r) + s, Count(PutAll(r, s)))
    decreases |s|
  {
    if s == [] {
      assert Contents(r) + s == Contents(r);
    } else {
      var s0, x := s[..|s| - 1], s[|s| - 1];
      assert s == s0 + [x];
      assert Contents(r) + s == (Contents(r) + s0) + [x];
      PutAllSuffix(r, s0);
      PushLast(PutAll(r, s0), Contents(r) + s0, x);
    }
  }

  /** One more push on top of a buffer holding the last Count elements of `t`. */
  lemma PushLast<T>(r: Ring<T>, t: seq<T>, x: T)
    requires r.Valid() && Count(r) <= |t| && Contents(r) == Last(t, Count(r))
    ensures Count(Put(r, x)) <= |t + [x]|
    ensures Contents(Put(r, x)) == Last(t + [x], Count(Put(r, x)))
  {
    PutContents(r, x);
    PutCount(r, x);
    if Count(r) < |r.buf| - 1 {
      assert Last(t, Count(r)) + [x] == Last(t + [x], Count(r) + 1);
    }
  }

  /**
   * After `put_all_data(s)` the unread items are the last ((c + |s|) mod N) of
   * the old unread items followed by `s`, where c is the old count: in
   * particular every N-th push empties the buffer.
   */
  lemma PutAllContents<T>(r: Ring<T>, s: seq<T>)
    requires r.Valid()
    ensures Count(PutAll(r, s)) == (Count(r) + |s|) % |r.buf|
    ensures Count(PutAll(r, s)) <= |Contents(r) + s|
    ensures Contents(PutAll(r, s)) == Last(Contents(r) + s, (Count(r) + |s|) % |r.buf|)
  {
    PutAllCount(r, s);
    WrapIsMod(Count(r) + |s|, |r.buf|);
    PutAllSuffix(r, s);
  }

  /** With room for them (fewer than N - 1 items after), `put_all_data(s)` appends `s` to the unread items. */
  lemma PutAllAppends<T>(r: Ring<T>, s: seq<T>)
    requires r.Valid() && Count(r) + |s| < |r.buf|
    ensures Contents(PutAll(r, s)) == Contents(r) + s
  {
    PutAllCount(r, s);
    PutAllSuffix(r, s);
  }

  /** `k` pops, with no more than `k` items held, return the `k` oldest items in order and leave the rest. */
  lemma PopsContents<T>(r: Ring<T>, k: nat)
    requires r.Valid() && k <= Count(r)
    ensures Pops(r, k).0 == Somes(Contents(r)[..k])
    ensures Contents(Pops(r, k).1) == Contents(r)[k..]
  {
    PopsReturn(r, k);
    PopsLeave(r, k);
  }

  lemma {:induction false} PopsReturn<T>(r: Ring<T>, k: nat)
    requires r.Valid() && k <= Count(r)
    ensures Pops(r, k).0 == Somes(Contents(r)[..k])
    decreases k
  {
    if k > 0 {
      GetContents(r);
      PopsReturn(Get(r).1, k - 1);
      SomesTail(Contents(r), k);
    }
  }

  lemma {:induction false} PopsLeave<T>(r: Ring<T>, k: nat)
    requires r.Valid() && k <= Count(r)
    ensures Contents(Pops(r, k).1) == Contents(r)[k..]
    decreases k
  {
    if k > 0 {
      GetContents(r);
      PopsLeave(Get(r).1, k - 1);
      assert Contents(r)[1..][k - 1..] == Contents(r)[k..];
    }
  }

  lemma SomesTail<T>(c: seq<T>, k: nat)
    requires 1 <= k <= |c|
    ensures [Some(c[0])] + Somes(c[1..][..k - 1]) == Somes(c[..k])
  {
    assert c[1..][..k - 1] == c[1..k];
  }

  /**
   * FIFO: starting from an empty buffer, after k < N pushes, k pops return the
   * pushed items in order and the next pop returns None.
   */
  lemma FifoFromEmpty<T>(r: Ring<T>, xs: seq<T>)
    requires r.Valid() && r.wi == r.ri && |xs| < |r.buf|
    ensures Contents(PutAll(r, xs)) == xs
    ensures Pops(PutAll(r, xs), |xs|).0 == Somes(xs)
    ensures Get(Pops(PutAll(r, xs), |xs|).1).0 == None
  {
    PutAllAppends(r, xs);
    assert [] + xs == xs;
    var r' := PutAll(r, xs);
    PopsContents(r', |xs|);
    assert xs[..|xs|] == xs;
    GetContents(Pops(r', |xs|).1);
  }

  /**
   * Wrap-around: from an empty buffer, exactly N pushes bring `wi` back onto
   * `ri`, so the buffer reads as empty and the next pop returns None.
   */
  lemma WrapAroundEmpties<T>(r: Ring<T>, xs: seq<T>)
    requires r.Valid() && r.wi == r.ri && |xs| == |r.buf|
    ensures PutAll(r, xs).wi == PutAll(r, xs).ri == r.ri
    ensures Contents(PutAll(r, xs)) == []
    ensures Get(PutAll(r, xs)) == (None, PutAll(r, xs))
  {
    PutAllWi(r, xs);
    assert Wrap(r.wi + |xs|, |r.buf|) == Wrap(r.wi, |r.buf|);
  }

  /** Popping an empty buffer any number of times returns only None and changes nothing. */
  lemma {:induction false} EmptyPopsIdempotent<T>(r: Ring<T>, k: nat)
    requires r.Valid() && r.wi == r.ri
    ensures Pops(r, k).1 == r
    ensures forall i :: 0 <= i < k ==> Pops(r, k).0[i] == None
    decreases k
  {
    if k > 0 {
      EmptyPopsIdempotent(r, k - 1);
    }
  }

  // ---------------------------------------------------------------------------
  // The object the firmware mutates in place

  class CircularBuff<T(0)> {
    const buf: array<T>
    var ri: nat
    var wi: nat

    /** The buffer's current value. */
    ghost function State(): Ring<T>
      reads this, buf
    {
      Ring(buf[..], ri, wi)
    }

    ghost predicate Valid()
      reads this, buf
    {
      State().Valid()
    }

    /** A buffer of `n` slots with both indices at 0, as the firmware's statics start. */
    constructor (n: nat)
      requires 1 <= n
      ensures Valid() && fresh(buf) && buf.Length == n
      ensures ri == 0 && wi == 0 && Contents(State()) == []
    {
      buf := new T[n];
      ri, wi := 0, 0;
    }

    method PutData(data: T)
      requires Valid()
      modifies this`wi, buf
      ensures Valid() && State() == Put(old(State()), data)
    {
      buf[wi] := data;
      if wi == buf.Length - 1 {
        wi := 0;
      } else {
        wi := wi + 1;
      }
    }

    method PutAllData(data: seq<T>)
      requires Valid()
      modifies this`wi, buf
      ensures Valid() && State() == PutAll(old(State()), data)
    {
      for i := 0 to |data|
        invariant Valid() && State() == PutAll(old(State()), data[..i])
      {
        assert data[..i + 1][..i] == data[..i];
        PutData(data[i]);
      }
      assert data[..|data|] == data;
    }

    method GetData() returns (data: Option<T>)
      requires Valid()
      modifies this`ri
      ensures Valid() && (data, State()) == Get(old(State()))
    {
      data := None;
      if wi != ri {
        data := Some(buf[ri]);
        if ri == buf.Length - 1 {
          ri := 0;
        } else {
          ri := ri + 1;
        }
      }
    }

    /** `get_all_data` is one `get_data`: callers loop on it until it returns None. */
    method GetAllData() returns (data: Option<T>)
      requires Valid()
      modifies this`ri
      ensures Valid() && (data, State()) == Get(old(State()))
    {
      data := GetData();
    }
  }
}
