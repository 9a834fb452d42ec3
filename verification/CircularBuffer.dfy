/** The ring of transient strings: plain and escaped pushes, and how long an entry survives. */
module CircularBuffer {
  import opened Unescaping
  import opened Words

  const NULL := -1

  // ----- the ring as a value -----

  datatype Ring = Ring(bytes: string, offset: nat)

  /** An entry goes where the last one ended, or to the front if it does not fit there. */
  function Place(r: Ring, k: nat): nat {
    if k > |r.bytes| - r.offset then 0 else r.offset
  }

  /** What any push, escaped or not, may do: it puts the text in its place and leaves all else alone, except
      that one which went to the front may have used the space after the last entry first. */
  ghost predicate Pushed(r: Ring, r': Ring, text: string) {
    var p := Place(r, |text|);
    && 0 < |text| <= |r.bytes| == |r'.bytes|
    && r.offset <= |r.bytes|
    && r'.offset == p + |text|
    && r'.bytes[p..p + |text|] == text
    && forall i :: 0 <= i < |r.bytes| && !(p <= i < p + |text|) && !(p != r.offset && r.offset <= i) ==>
         r'.bytes[i] == r.bytes[i]
  }

  lemma LetPushed(r: Ring, r': Ring, text: string)
    requires 0 < |text| <= |r.bytes| && r.offset <= |r.bytes|
    requires var p := Place(r, |text|);
      r' == Ring(r.bytes[..p] + text + r.bytes[p + |text|..], p + |text|)
    ensures Pushed(r, r', text)
  {
  }

  // ----- the buffer -----

  class Cbuf {
    const buf: array<char>
    var offset: nat

    /** e4__mem_cbuf_init */
    constructor (buf: array<char>)
      ensures this.buf == buf && offset == 0 && Valid()
    {
      this.buf, this.offset := buf, 0;
    }

    ghost predicate Valid()
      reads this
    {
      offset <= buf.Length
    }

    ghost function Contents(): Ring
      reads this, buf
    {
      Ring(buf[..], offset)
    }

    /** e4__mem_cbuf_push */
    method Push(src: string) returns (at: int)
      requires Valid()
      modifies this, buf
      ensures Valid()
      ensures at == NULL <==> src == "" || |src| > buf.Length
      ensures at == NULL ==> Contents() == old(Contents())
      ensures at != NULL ==> at == Place(old(Contents()), |src|) && Pushed(old(Contents()), Contents(), src)
      ensures at != NULL ==> buf[..] == old(buf[..])[..at] + src + old(buf[..])[at + |src|..]
    {
      ghost var was := Contents();
      if |src| > buf.Length || |src| == 0 {
        return NULL;
      }
      if |src| > buf.Length - offset {
        offset := 0;
      }
      at := offset;
      Copy(buf, at, src);
      offset := offset + |src|;
      LetPushed(was, Contents(), src);
    }

    /** One chunk of an escaped push: behind what there is, or at the front after moving that there. */
    method Append(ghost was: Ring, start: nat, ghost done: string, chunk: string) returns (ok: bool, start': nat)
      requires Valid() && offset == start + |done| && Filling(was, Contents(), start, done, 0)
      modifies this, buf
      ensures ok <==> |done| + |chunk| <= buf.Length
      ensures if ok then offset == start' + |done| + |chunk| <= buf.Length &&
                         Filling(was, Contents(), start', done + chunk, 0)
              else offset == 0
    {
      hide Filling;
      ghost var now := Contents();
      FillingHolds(was, now, start, done);
      ok, start' := true, start;
      if |chunk| > buf.Length - offset {
        if start == 0 || |chunk| > buf.Length - (offset - start) {
          offset := 0;
          return false, start;
        }
        Copy(buf, 0, buf[start..offset]);
        offset := offset - start;
        assert now.bytes[..0] == "";
        FillingMoves(was, now, Contents(), start, done, |chunk|);
        start' := 0;
      }
      now := Contents();
      Copy(buf, offset, chunk);
      offset := offset + |chunk|;
      FillingGrows(was, now, Contents(), start', done, chunk);
    }

    /** e4__mem_cbuf_epush: unescape straight into the ring.  When the text fits it ends up as Push would
        have put the unescaped text, although a first part may have had to move to the front; when it does
        not the ring starts over. */
    method EPush(src: string) returns (at: int, sz: nat)
      requires Valid()
      modifies this, buf
      ensures Valid()
      ensures at == NULL <==> src == "" || |Unescape(src)| > buf.Length
      ensures src == "" ==> Contents() == old(Contents())
      ensures src != "" && at == NULL ==> offset == 0
      ensures at != NULL ==>
        var text := Unescape(src);
        sz == |text| && at == Place(old(Contents()), |text|) && Pushed(old(Contents()), Contents(), text)
    {
      hide Unescape, Filling, Pushed, Place;
      ghost var was := Contents();
      sz := |src|;
      if sz == 0 {
        EmptyText(src);
        return NULL, sz;
      }
      var start: nat, pos: nat, len: nat, more, chunk, ok := offset, 0, |src|, true, "", true;
      ghost var done := "";
      assert src[pos..pos + len] == src;
      FillingStarts(was);
      while true
        invariant pos + len == |src|
        invariant offset == start + |done| <= buf.Length && Filling(was, Contents(), start, done, 0)
        invariant Unescape(src) == done + Unescape(src[pos..pos + len])
        decreases len
      {
        more, chunk, pos, len := Strnescape(src, pos, len);
        if !more {
          break;
        }
        ok, start := Append(was, start, done, chunk);
        if !ok {
          return NULL, |src|;
        }
        done := done + chunk;
      }
      EmptyText(src[pos..pos + len]);
      NotEmpty(src);
      assert done == Unescape(src);
      FillingEnds(was, Contents(), start, done);
      sz := offset - start;
      at := start;
    }
  }

  lemma NotEmpty(s: string)
    requires s != ""
    ensures Unescape(s) != ""
  {
  }

  /** The part of an entry written so far, from start to the offset, with k more characters to come. */
  ghost predicate Filling(was: Ring, now: Ring, start: nat, done: string, k: nat) {
    && |now.bytes| == |was.bytes| && was.offset <= |was.bytes|
    && now.offset == start + |done| <= |now.bytes|
    && now.bytes[start..now.offset] == done
    && (start == was.offset || (start == 0 && |done| + k > |was.bytes| - was.offset))
    && forall i :: 0 <= i < |was.bytes| && !(start <= i < now.offset) && !(start != was.offset && was.offset <= i) ==>
         now.bytes[i] == was.bytes[i]
  }

  lemma FillingStarts(was: Ring)
    requires was.offset <= |was.bytes|
    ensures Filling(was, was, was.offset, "", 0)
  {
  }

  lemma FillingHolds(was: Ring, now: Ring, start: nat, done: string)
    requires Filling(was, now, start, done, 0)
    ensures start <= now.offset <= |now.bytes| && now.bytes[start..now.offset] == done
  {
  }

  lemma FillingEnds(was: Ring, now: Ring, start: nat, done: string)
    requires Filling(was, now, start, done, 0) && done != ""
    ensures |done| <= |was.bytes| && start == Place(was, |done|) && Pushed(was, now, done)
  {
  }

  /** Moving what there is of an entry to the front. */
  lemma FillingMoves(was: Ring, now: Ring, next: Ring, start: nat, done: string, k: nat)
    requires Filling(was, now, start, done, 0) && 0 < start && k > |now.bytes| - now.offset
    requires next.offset == |done| && next.bytes == done + now.bytes[|done|..]
    ensures Filling(was, next, 0, done, k)
  {
    assert next.bytes[0..|done|] == done;
    forall i | 0 <= i < |was.bytes| && !(0 <= i < next.offset) && !(0 != was.offset && was.offset <= i)
      ensures next.bytes[i] == was.bytes[i]
    {
      assert next.bytes[i] == now.bytes[i];
    }
  }

  lemma FillingGrows(was: Ring, now: Ring, next: Ring, start: nat, done: string, chunk: string)
    requires Filling(was, now, start, done, |chunk|) || Filling(was, now, start, done, 0)
    requires now.offset + |chunk| <= |now.bytes|
    requires next.offset == now.offset + |chunk|
    requires next.bytes == now.bytes[..now.offset] + chunk + now.bytes[next.offset..]
    ensures Filling(was, next, start, done + chunk, 0)
  {
    assert next.bytes[start..next.offset] == now.bytes[start..now.offset] + chunk;
  }

  // ----- survival -----

  /** Entry text lies at position p, whole. */
  predicate Intact(r: Ring, p: nat, text: string) {
    p + |text| <= |r.bytes| && r.bytes[p..p + |text|] == text
  }

  /** Any number of pushes in a row: rings[i] becomes rings[i + 1] when texts[i] is pushed. */
  ghost predicate History(rings: seq<Ring>, texts: seq<string>) {
    && |rings| == |texts| + 1
    && forall i :: 0 <= i < |texts| ==> Pushed(rings[i], rings[i + 1], texts[i])
  }

  ghost predicate SizesUpTo(texts: seq<string>, n: nat) {
    forall i :: 0 <= i < |texts| ==> |texts[i]| <= n
  }

  /** Where the offset can be t pushes after an entry of length l was put at p: still behind it, or at the
      front again and then too far back to reach it. */
  predicate OutOfReach(size: nat, n: nat, p: nat, l: nat, t: nat, offset: nat) {
    || p + l <= offset <= p + l + t * n
    || (offset <= p && offset + size < p + (t + 2) * n)
  }

  lemma PushSpares(r: Ring, r': Ring, text: string, p: nat, l: nat)
    requires Pushed(r, r', text) && p + l <= |r.bytes|
    requires var q := Place(r, |text|);
      && (q + |text| <= p || p + l <= q)
      && (q != r.offset ==> p + l <= r.offset)
    ensures r'.bytes[p..p + l] == r.bytes[p..p + l]
  {
  }

  /** One more push of at most n characters, while there is still room, but for one character, for three
      entries of size n beside the t ones. */
  lemma OneMore(r: Ring, r': Ring, text: string, n: nat, p: nat, e: string, t: nat)
    requires Pushed(r, r', text) && |text| <= n && |e| <= n && (t + 3) * n <= |r.bytes| + 1
    requires Intact(r, p, e) && OutOfReach(|r.bytes|, n, p, |e|, t, r.offset)
    ensures Intact(r', p, e) && OutOfReach(|r.bytes|, n, p, |e|, t + 1, r'.offset)
  {
    Multiples(t, n);
    PushSpares(r, r', text, p, |e|);
  }

  lemma Multiples(t: nat, n: nat)
    ensures (t + 1) * n == t * n + n && (t + 2) * n == t * n + 2 * n && (t + 3) * n == t * n + 3 * n
  {
  }

  /** Right after its own push the entry is there and the offset behind it. */
  lemma JustPlaced(r: Ring, r': Ring, text: string, n: nat)
    requires Pushed(r, r', text)
    ensures var p := Place(r, |text|);
      Intact(r', p, text) && OutOfReach(|r.bytes|, n, p, |text|, 0, r'.offset)
  {
  }

  /** Entry j after later pushes, up to the m-th. */
  lemma {:induction false} SurvivesFrom(rings: seq<Ring>, texts: seq<string>, n: nat, j: nat, m: nat)
    requires History(rings, texts) && SizesUpTo(texts, n)
    requires j < m <= |texts| && (m - j + 1) * n <= |rings[0].bytes| + 1
    ensures |rings[m].bytes| == |rings[0].bytes|
    ensures var p := Place(rings[j], |texts[j]|);
      Intact(rings[m], p, texts[j]) && OutOfReach(|rings[0].bytes|, n, p, |texts[j]|, m - j - 1, rings[m].offset)
    decreases m
  {
    hide Pushed, Intact, OutOfReach, Place;
    SameSize(rings, texts, m);
    SameSize(rings, texts, m - 1);
    assert Pushed(rings[m - 1], rings[m], texts[m - 1]);
    if m <= j + 1 {
      JustPlaced(rings[j], rings[m], texts[j], n);
    } else {
      Multiples(m - j - 2, n);
      SurvivesFrom(rings, texts, n, j, m - 1);
      OneMore(rings[m - 1], rings[m], texts[m - 1], n, Place(rings[j], |texts[j]|), texts[j], m - j - 2);
    }
  }

  lemma {:induction false} SameSize(rings: seq<Ring>, texts: seq<string>, m: nat)
    requires History(rings, texts) && m <= |texts|
    ensures |rings[m].bytes| == |rings[0].bytes|
  {
    if m == 0 {
    } else {
      assert Pushed(rings[m - 1], rings[m], texts[m - 1]);
      SameSize(rings, texts, m - 1);
    }
  }

  /** After any pushes of at most n characters each, the latest size / n - 1 entries are intact. */
  lemma LatestSurvive(rings: seq<Ring>, texts: seq<string>, n: nat, j: nat)
    requires History(rings, texts) && SizesUpTo(texts, n) && 0 < n
    requires j < |texts| && |texts| - j <= |rings[0].bytes| / n - 1
    ensures Intact(rings[|texts|], Place(rings[j], |texts[j]|), texts[j])
  {
    QuotientFits(|rings[0].bytes|, n, |texts| - j + 1);
    SurvivesFrom(rings, texts, n, j, |texts|);
  }

  lemma QuotientFits(s: nat, n: nat, k: nat)
    requires 0 < n && k <= s / n
    ensures k * n <= s
  {
    assert s == s / n * n + s % n;
    assert (s / n - k) * n >= 0;
  }

  // ----- entries of one size -----

  ghost predicate SizesExactly(texts: seq<string>, n: nat) {
    forall i :: 0 <= i < |texts| ==> |texts[i]| == n
  }

  /** Entries fill size / n slots in turn. */
  lemma {:induction false} SlotAfter(rings: seq<Ring>, texts: seq<string>, n: nat, m: nat) returns (slot: nat)
    requires History(rings, texts) && SizesExactly(texts, n) && 0 < n
    requires rings[0].offset == 0 && 0 < m <= |texts|
    ensures var k := |rings[0].bytes| / n;
      && 0 < k && slot == (m - 1) % k && rings[m].offset == (slot + 1) * n
      && Place(rings[m - 1], n) == slot * n
    decreases m
  {
    SameSize(rings, texts, m - 1);
    assert Pushed(rings[m - 1], rings[m], texts[m - 1]);
    var size := |rings[0].bytes|;
    var k := size / n;
    SlotFacts(size, n);
    if m == 1 {
      slot := 0;
    } else {
      var before := SlotAfter(rings, texts, n, m - 1);
      slot := NextSlot(size, n, m - 1, before);
    }
  }

  lemma SlotFacts(size: nat, n: nat)
    requires 0 < n <= size
    ensures 0 < size / n && size / n * n <= size < (size / n + 1) * n
    ensures 0 % (size / n) == 0
  {
    var k := size / n;
    assert size == k * n + size % n;
    assert (k + 1) * n == k * n + n;
  }

  lemma NextSlot(size: nat, n: nat, m: nat, slot: nat) returns (next: nat)
    requires 0 < n <= size && 0 < m && 0 < size / n && slot == (m - 1) % (size / n)
    ensures next == m % (size / n)
    ensures (if n > size - (slot + 1) * n then 0 else (slot + 1) * n) == next * n
    ensures (if n > size - (slot + 1) * n then n else (slot + 1) * n + n) == (next + 1) * n
  {
    var k := size / n;
    SlotFacts(size, n);
    var q := (m - 1) / k;
    assert m - 1 == q * k + slot;
    next := if slot + 1 == k then 0 else slot + 1;
    ModIs(m, k, if slot + 1 == k then q + 1 else q, next);
    NextPlace(size, n, k, slot);
  }

  lemma NextPlace(size: nat, n: nat, k: nat, slot: nat)
    requires 0 < n && slot < k && k * n <= size < (k + 1) * n
    ensures n > size - (slot + 1) * n <==> slot + 1 == k
    ensures (slot + 2) * n == (slot + 1) * n + n
  {
    MulAtLeast(slot + 2, k, n);
    MulAtLeast(k + 1, slot + 2, n);
    Multiples(slot, n);
  }

  /** From a fresh buffer, entries of exactly n characters leave size / n of them intact. */
  lemma {:induction false} EqualSurvive(rings: seq<Ring>, texts: seq<string>, n: nat, j: nat, m: nat)
    requires History(rings, texts) && SizesExactly(texts, n) && 0 < n && rings[0].offset == 0
    requires j < m <= |texts| && m - j <= |rings[0].bytes| / n
    ensures Intact(rings[m], Place(rings[j], n), texts[j])
    decreases m
  {
    hide Intact, Pushed;
    SameSize(rings, texts, m - 1);
    assert Pushed(rings[m - 1], rings[m], texts[m - 1]);
    if m > j + 1 {
      EqualSurvive(rings, texts, n, j, m - 1);
      var a := SlotAfter(rings, texts, n, j + 1);
      var b := SlotAfter(rings, texts, n, m);
      var c := SlotAfter(rings, texts, n, m - 1);
      SlotsDiffer(j, m - 1, |rings[0].bytes| / n);
      OtherSlot(rings[m - 1], rings[m], texts[m - 1], texts[j], a, b, c, n);
    } else {
      JustPushed(rings[j], rings[m], texts[j]);
    }
  }

  lemma JustPushed(r: Ring, r': Ring, text: string)
    requires Pushed(r, r', text)
    ensures Intact(r', Place(r, |text|), text)
  {
  }

  /** A push into another slot than that of e. */
  lemma OtherSlot(r: Ring, r': Ring, text: string, e: string, a: nat, b: nat, c: nat, n: nat)
    requires Pushed(r, r', text) && |text| == n && |e| == n && Intact(r, a * n, e)
    requires a != b && Place(r, n) == b * n && r.offset == (c + 1) * n && (b == 0 ==> a <= c)
    ensures Intact(r', a * n, e)
  {
    SlotsApart(a, b, c, n);
    PushSpares(r, r', text, a * n, n);
  }

  lemma SlotsDiffer(i: nat, j: nat, k: nat)
    requires i < j < i + k
    ensures i % k != j % k
    ensures j % k == 0 ==> i % k <= (j - 1) % k
  {
    var q, r := i / k, i % k;
    assert i == q * k + r;
    if r + (j - i) < k {
      ModIs(j, k, q, r + (j - i));
    } else {
      assert (q + 1) * k == q * k + k;
      ModIs(j, k, q + 1, r + (j - i) - k);
      if j - 1 - i + r < k {
        ModIs(j - 1, k, q, r + (j - 1 - i));
      } else {
        ModIs(j - 1, k, q + 1, r + (j - 1 - i) - k);
      }
    }
  }

  lemma SlotsApart(a: nat, b: nat, c: nat, n: nat)
    requires a != b
    ensures b * n + n <= a * n || a * n + n <= b * n
    ensures a <= c ==> a * n + n <= (c + 1) * n
  {
    MulAtLeast(a + 1, b, n);
    MulAtLeast(b + 1, a, n);
    MulAtLeast(a + 1, c + 1, n);
    Multiples(a, n);
    Multiples(b, n);
  }

  // ----- the promise of the comment -----

  /** The last k entries, or all there are, lie where they were put. */
  ghost predicate LatestIntact(rings: seq<Ring>, texts: seq<string>, k: int)
    requires |rings| == |texts| + 1
  {
    forall j :: 0 <= j < |texts| && |texts| - k <= j ==>
      Intact(rings[|texts|], Place(rings[j], |texts[j]|), texts[j])
  }

  /** A fresh buffer of that size never smashes the previous size / n entries of n characters or less. */
  ghost predicate Promise(size: nat, n: nat)
    requires 0 < n
  {
    forall rings: seq<Ring>, texts: seq<string> | History(rings, texts) ::
      |rings[0].bytes| == size && rings[0].offset == 0 && SizesUpTo(texts, n) ==>
        LatestIntact(rings, texts, size / n)
  }

  /** The buffer keeps the promise exactly when it holds less than two entries of n characters, or falls
      one character short of another one. */
  lemma PromiseHolds(size: nat, n: nat)
    requires 0 < n
    ensures Promise(size, n) <==> size / n <= 1 || size % n == n - 1
  {
    hide Promise;
    if size / n <= 1 || size % n == n - 1 {
      PromiseKept(size, n);
    } else {
      PromiseBroken(size, n);
    }
  }

  lemma PromiseKept(size: nat, n: nat)
    requires 0 < n && (size / n <= 1 || size % n == n - 1)
    ensures Promise(size, n)
  {
    forall rings: seq<Ring>, texts: seq<string>
      | History(rings, texts) && |rings[0].bytes| == size && SizesUpTo(texts, n)
      ensures LatestIntact(rings, texts, size / n)
    {
      forall j | 0 <= j < |texts| && |texts| - size / n <= j
        ensures Intact(rings[|texts|], Place(rings[j], |texts[j]|), texts[j])
      {
        if j == |texts| - 1 {
          JustPushed(rings[j], rings[j + 1], texts[j]);
        } else {
          ShortByOne(size, n, |texts| - j);
          SurvivesFrom(rings, texts, n, j, |texts|);
        }
      }
    }
  }

  lemma ShortByOne(size: nat, n: nat, t: nat)
    requires 0 < n && size % n == n - 1 && t <= size / n
    ensures (t + 1) * n <= size + 1
  {
    assert size == size / n * n + size % n;
    MulAtLeast(t + 1, size / n + 1, n);
    Multiples(size / n, n);
  }

  function PushOn(r: Ring, text: string): Ring
    requires |text| <= |r.bytes| && r.offset <= |r.bytes|
  {
    var p := Place(r, |text|);
    Ring(r.bytes[..p] + text + r.bytes[p + |text|..], p + |text|)
  }

  /** Every text can be pushed into a ring of that size. */
  predicate AllFit(texts: seq<string>, size: nat) {
    forall i :: 0 <= i < |texts| ==> 0 < |texts[i]| <= size
  }

  function Trace(r: Ring, texts: seq<string>): (rings: seq<Ring>)
    requires AllFit(texts, |r.bytes|) && r.offset <= |r.bytes|
    ensures |rings| == |texts| + 1 && rings[0] == r
    decreases |texts|
  {
    if texts == [] then [r] else [r] + Trace(PushOn(r, texts[0]), texts[1..])
  }

  lemma {:induction false} TraceIsHistory(r: Ring, texts: seq<string>)
    requires AllFit(texts, |r.bytes|) && r.offset <= |r.bytes|
    ensures History(Trace(r, texts), texts)
    ensures forall i :: 0 <= i < |texts| ==>
      Trace(r, texts)[i + 1].offset == Place(Trace(r, texts)[i], |texts[i]|) + |texts[i]|
    decreases |texts|
  {
    if texts == [] {
    } else {
      var r' := PushOn(r, texts[0]);
      LetPushed(r, r', texts[0]);
      TraceIsHistory(r', texts[1..]);
      forall i | 0 <= i < |texts|
        ensures Pushed(Trace(r, texts)[i], Trace(r, texts)[i + 1], texts[i])
        ensures Trace(r, texts)[i + 1].offset == Place(Trace(r, texts)[i], |texts[i]|) + |texts[i]|
      {
        if i > 0 {
          assert texts[i] == texts[1..][i - 1] && Trace(r, texts)[i] == Trace(r', texts[1..])[i - 1];
          assert Pushed(Trace(r', texts[1..])[i - 1], Trace(r', texts[1..])[i], texts[1..][i - 1]);
        }
      }
    }
  }

  function Fill(c: char, k: nat): (s: string)
    ensures |s| == k && forall i :: 0 <= i < k ==> s[i] == c
  {
    seq(k, i => c)
  }

  /** The history that breaks the promise for a size of k * n + r: a short entry and then one entry more of
      n characters than fit behind it. */
  function Breaking(n: nat, k: nat, r: nat): (texts: seq<string>)
    ensures |texts| == k + 1
    ensures texts[0] == Fill('a', r + 1) && (0 < k ==> texts[k] == Fill('b', n))
    ensures forall i :: 0 < i < k ==> texts[i] == Fill('a', n)
  {
    seq(k + 1, i => if i == 0 then Fill('a', r + 1) else Fill(if i == k then 'b' else 'a', n))
  }

  lemma BreakingFits(n: nat, k: nat, r: nat, size: nat)
    requires 1 < k && r + 1 < n && size == k * n + r
    ensures AllFit(Breaking(n, k, r), size) && SizesUpTo(Breaking(n, k, r), n)
  {
    MulAtLeast(1, k, n);
    forall i | 0 <= i < k + 1
      ensures 0 < |Breaking(n, k, r)[i]| <= n
    {
      if 0 < i < k {
        assert Breaking(n, k, r)[i] == Fill('a', n);
      }
    }
  }

  lemma RoomBehind(n: nat, k: nat, r: nat, i: nat)
    requires i <= k
    ensures (k * n + r) - (r + 1 + i * n) == (k - i) * n - 1
    ensures i + 2 <= k ==> (k - i) * n - 1 >= n + n - 1
    ensures i + 1 == k ==> (k - i) * n - 1 == n - 1
    ensures (i + 1) * n == i * n + n
  {
    assert (k - i) * n == k * n - i * n;
    MulAtLeast(2, k - i, n);
  }

  lemma {:induction false} FillsUp(n: nat, k: nat, r: nat, ring: Ring, i: nat)
    requires 1 < k && r + 1 < n && |ring.bytes| == k * n + r && ring.offset == 0
    requires AllFit(Breaking(n, k, r), |ring.bytes|) && i < k
    ensures var rings := Trace(ring, Breaking(n, k, r));
      |rings[i + 1].bytes| == k * n + r && rings[i + 1].offset == r + 1 + i * n
  {
    var texts := Breaking(n, k, r);
    hide AllFit, History, Trace, Breaking;
    TraceIsHistory(ring, texts);
    var rings := Trace(ring, texts);
    SameSize(rings, texts, i + 1);
    assert rings[i + 1].offset == Place(rings[i], |texts[i]|) + |texts[i]|;
    if i == 0 {
    } else {
      FillsUp(n, k, r, ring, i - 1);
      RoomBehind(n, k, r, i - 1);
      assert texts[i] == Fill('a', n);
    }
  }

  /** The latest entry has gone to the front and over the oldest of the last k. */
  lemma FrontOverwrites(n: nat, k: nat, r: nat, ring: Ring)
    requires 1 < k && r + 1 < n && |ring.bytes| == k * n + r && ring.offset == 0
    requires AllFit(Breaking(n, k, r), |ring.bytes|)
    ensures !LatestIntact(Trace(ring, Breaking(n, k, r)), Breaking(n, k, r), k)
  {
    var texts := Breaking(n, k, r);
    hide AllFit, Trace, Breaking;
    TraceIsHistory(ring, texts);
    var rings := Trace(ring, texts);
    FillsUp(n, k, r, ring, 0);
    FillsUp(n, k, r, ring, k - 1);
    RoomBehind(n, k, r, 0);
    RoomBehind(n, k, r, k - 1);
    assert texts[1] == Fill('a', n) && Place(rings[1], n) == r + 1;
    assert Pushed(rings[k], rings[k + 1], texts[k]) && Place(rings[k], n) == 0;
    Overwritten(rings[k + 1], texts[k], texts[1], r + 1);
  }

  lemma Overwritten(ring: Ring, now: string, was: string, p: nat)
    requires p < |now| <= |ring.bytes| && ring.bytes[0..|now|] == now
    requires 0 < |was| && was[0] != now[p]
    ensures !Intact(ring, p, was)
  {
    assert ring.bytes[0..|now|][p] == ring.bytes[p];
    if p + |was| <= |ring.bytes| {
      assert ring.bytes[p..p + |was|][0] == ring.bytes[p];
    }
  }

  lemma PromiseBroken(size: nat, n: nat)
    requires 0 < n && 1 < size / n && size % n < n - 1
    ensures !Promise(size, n)
  {
    DivisionFacts(size, n);
    var ring, texts := Ring(Fill('.', size), 0), Breaking(n, size / n, size % n);
    BreakingFits(n, size / n, size % n, size);
    TraceIsHistory(ring, texts);
    FrontOverwrites(n, size / n, size % n, ring);
  }

  lemma DivisionFacts(size: nat, n: nat)
    requires 0 < n
    ensures 0 <= size / n && 0 <= size % n < n && size == size / n * n + size % n
  {
  }

  /** An instance of the promise broken: of 4, 5 and 5 characters pushed into 10, the last goes to
      the front and over the one before it. */
  lemma MixedSizesLose(r0: Ring, a: string, b: string, c: string)
    requires |r0.bytes| == 10 && r0.offset == 0 && |a| == 4 && |b| == 5 && |c| == 5 && b[0] != c[4]
    ensures var r1 := Ring(a + r0.bytes[4..], 4);
      var r2 := Ring(a + b + r0.bytes[9..], 9);
      var r3 := Ring(c + r2.bytes[5..], 5);
      && History([r0, r1, r2, r3], [a, b, c]) && SizesUpTo([a, b, c], 5) && 10 / 5 == 2
      && !Intact(r3, Place(r1, |b|), b) && !Promise(10, 5)
  {
    PromiseHolds(10, 5);
    hide Promise;
    var r1 := Ring(a + r0.bytes[4..], 4);
    var r2 := Ring(a + b + r0.bytes[9..], 9);
    var r3 := Ring(c + r2.bytes[5..], 5);
    assert r0.bytes[..0] + a + r0.bytes[4..] == r1.bytes;
    assert r1.bytes[..4] + b + r1.bytes[9..] == r2.bytes;
    assert r2.bytes[..0] + c + r2.bytes[5..] == r3.bytes;
    LetPushed(r0, r1, a);
    LetPushed(r1, r2, b);
    LetPushed(r2, r3, c);
    assert r3.bytes[4..9][0] == c[4];
  }
}
