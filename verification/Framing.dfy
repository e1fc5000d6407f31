/**
 * Batches of byte strings in one buffer: how many there are, then each behind its length. Numbers take
 * four bytes, least significant first.
 */
module Framing {
  import opened Prelude

  type byte = x: int | 0 <= x < 256

  const U32: nat := 0x1_0000_0000

  datatype FrameError = TruncatedHeader | TruncatedElement

  /** The low `k` bytes of `n`, least significant first. */
  function LeDigits(n: nat, k: nat): (b: seq<byte>)
    ensures |b| == k
    decreases k
  {
    if k == 0 then [] else [n % 256] + LeDigits(n / 256, k - 1)
  }

  /** `(n as u32).to_le_bytes()`: the cast keeps the low 32 bits. */
  function LeBytes(n: nat): seq<byte> { LeDigits(n, 4) }

  function FromLe(b: seq<byte>): nat { if b == [] then 0 else b[0] + 256 * FromLe(b[1..]) }

  lemma {:induction false} DigitsRoundTrip(n: nat, k: nat, bound: nat)
    requires bound == Pow256(k) && n < bound
    ensures FromLe(LeDigits(n, k)) == n
    decreases k
  {
    if k > 0 {
      DigitsRoundTrip(n / 256, k - 1, Pow256(k - 1));
      assert LeDigits(n, k)[1..] == LeDigits(n / 256, k - 1);
    }
  }

  function Pow256(k: nat): nat { if k == 0 then 1 else 256 * Pow256(k - 1) }

  lemma LeRoundTrip(n: nat)
    requires n < U32
    ensures FromLe(LeBytes(n)) == n
  {
    assert Pow256(4) == U32;
    DigitsRoundTrip(n, 4, U32);
  }

  lemma {:induction false} DigitsOfParsed(b: seq<byte>)
    ensures LeDigits(FromLe(b), |b|) == b && FromLe(b) < Pow256(|b|)
  {
    if b != [] {
      DigitsOfParsed(b[1..]);
      var rest: int, first: int := FromLe(b[1..]), b[0];
      assert FromLe(b) == first + 256 * rest;
      assert FromLe(b) % 256 == first && FromLe(b) / 256 == rest;
    }
  }

  lemma LeOfParsed(b: seq<byte>)
    requires |b| == 4
    ensures LeBytes(FromLe(b)) == b && FromLe(b) < U32
  {
    DigitsOfParsed(b);
    assert Pow256(4) == U32;
  }

  function FrameItems(items: seq<seq<byte>>): seq<byte> {
    if items == [] then [] else LeBytes(|items[0]|) + items[0] + FrameItems(items[1..])
  }

  function Frame(items: seq<seq<byte>>): seq<byte> {
    LeBytes(|items|) + FrameItems(items)
  }

  method FrameLoop(items: seq<seq<byte>>) returns (out: seq<byte>)
    ensures out == Frame(items)
  {
    out := LeBytes(|items|);
    for i := 0 to |items|
      invariant out + FrameItems(items[i..]) == Frame(items)
    {
      assert items[i..][1..] == items[i + 1..];
      Regroup(out, LeBytes(|items[i]|), items[i], FrameItems(items[i + 1..]));
      out := out + LeBytes(|items[i]|);
      out := out + items[i];
    }
  }

  lemma Regroup(out: seq<byte>, h: seq<byte>, x: seq<byte>, rest: seq<byte>)
    ensures out + (h + x + rest) == out + h + x + rest
  {
  }

  /** Decode `count` elements from the front of `buf`. */
  function UnframeItems(buf: seq<byte>, count: nat): Result<seq<seq<byte>>, FrameError>
    decreases count
  {
    if count == 0 then Ok([])
    else if |buf| < 4 then Err(TruncatedHeader)
    else
      var len := FromLe(buf[..4]);
      if |buf| < 4 + len then Err(TruncatedElement)
      else
        After([buf[4..4 + len]], UnframeItems(buf[4 + len..], count - 1))
  }

  /** Put the elements already decoded before what the rest decodes to. */
  function After(items: seq<seq<byte>>, rest: Result<seq<seq<byte>>, FrameError>): Result<seq<seq<byte>>, FrameError> {
    if rest.Ok? then Ok(items + rest.value) else rest
  }

  lemma AfterLaws(a: seq<seq<byte>>, b: seq<seq<byte>>, rest: Result<seq<seq<byte>>, FrameError>)
    ensures After([], rest) == rest
    ensures After(a, After(b, rest)) == After(a + b, rest)
  {
    if rest.Ok? {
      assert [] + rest.value == rest.value;
      assert a + (b + rest.value) == a + b + rest.value;
    }
  }

  function Unframe(buf: seq<byte>): Result<seq<seq<byte>>, FrameError> {
    if |buf| < 4 then Err(TruncatedHeader) else UnframeItems(buf[4..], FromLe(buf[..4]))
  }

  method TakeU32(buf: seq<byte>, pos: nat) returns (r: Result<nat, FrameError>, next: nat)
    requires pos <= |buf|
    ensures pos + 4 <= |buf| ==> next == pos + 4 && r == Ok(FromLe(buf[pos..pos + 4]))
    ensures pos + 4 > |buf| ==> next == pos && r == Err(TruncatedHeader)
  {
    if pos + 4 > |buf| {
      return Err(TruncatedHeader), pos;
    }
    return Ok(FromLe(buf[pos..pos + 4])), pos + 4;
  }

  method UnframeLoop(buf: seq<byte>) returns (r: Result<seq<seq<byte>>, FrameError>)
    ensures r == Unframe(buf)
  {
    var header, pos := TakeU32(buf, 0);
    if header.Err? {
      return Err(header.error);
    }
    var count := header.value;
    var items: seq<seq<byte>> := [];
    assert buf[0..4] == buf[..4];
    AfterLaws([], [], UnframeItems(buf[pos..], count));
    for i := 0 to count
      invariant 4 <= pos <= |buf|
      invariant Unframe(buf) == After(items, UnframeItems(buf[pos..], count - i))
    {
      ghost var rest := buf[pos..];
      var size, next := TakeU32(buf, pos);
      if size.Err? {
        return Err(size.error);
      }
      assert rest[..4] == buf[pos..next];
      var end := next + size.value;
      if end > |buf| {
        return Err(TruncatedElement);
      }
      assert rest[4..4 + size.value] == buf[next..end] && rest[4 + size.value..] == buf[end..];
      AfterLaws(items, [buf[next..end]], UnframeItems(buf[end..], count - i - 1));
      items := items + [buf[next..end]];
      pos := end;
    }
    assert items + [] == items;
    return Ok(items);
  }

  /** Count and lengths survive the narrowing to `u32`. */
  predicate Fits(items: seq<seq<byte>>) {
    |items| < U32 && forall i :: 0 <= i < |items| ==> |items[i]| < U32
  }

  lemma UnframeOne(h: seq<byte>, x: seq<byte>, rest: seq<byte>, count: nat)
    requires |h| == 4 && FromLe(h) == |x|
    ensures UnframeItems(h + x + rest, count + 1) == After([x], UnframeItems(rest, count))
  {
    var buf := h + x + rest;
    assert buf[..4] == h && buf[4..4 + |x|] == x && buf[4 + |x|..] == rest;
  }

  lemma UnframeCons(h: seq<byte>, x: seq<byte>, body: seq<byte>, tail: seq<byte>, items: seq<seq<byte>>)
    requires |h| == 4 && FromLe(h) == |x| && UnframeItems(body + tail, |items|) == Ok(items)
    ensures UnframeItems(h + x + body + tail, |items| + 1) == Ok([x] + items)
  {
    assert h + x + body + tail == h + x + (body + tail);
    UnframeOne(h, x, body + tail, |items|);
  }

  lemma {:induction false} UnframeItemsInverts(items: seq<seq<byte>>, tail: seq<byte>)
    requires forall i :: 0 <= i < |items| ==> |items[i]| < U32
    ensures UnframeItems(FrameItems(items) + tail, |items|) == Ok(items)
  {
    if items == [] {
      assert FrameItems(items) + tail == tail;
    } else {
      UnframeItemsInverts(items[1..], tail);
      LeRoundTrip(|items[0]|);
      UnframeCons(LeBytes(|items[0]|), items[0], FrameItems(items[1..]), tail, items[1..]);
      assert [items[0]] + items[1..] == items;
    }
  }

  lemma UnframeHeader(h: seq<byte>, items: seq<seq<byte>>, tail: seq<byte>)
    requires |h| == 4 && FromLe(h) == |items|
    requires forall i :: 0 <= i < |items| ==> |items[i]| < U32
    ensures Unframe(h + FrameItems(items) + tail) == Ok(items)
  {
    var buf := h + FrameItems(items) + tail;
    assert buf[..4] == h && buf[4..] == FrameItems(items) + tail;
    UnframeItemsInverts(items, tail);
  }

  lemma FitsRoundTrips(items: seq<seq<byte>>, tail: seq<byte>)
    requires Fits(items)
    ensures Unframe(Frame(items) + tail) == Ok(items)
  {
    LeRoundTrip(|items|);
    UnframeHeader(LeBytes(|items|), items, tail);
  }

  lemma FrameCons(h: seq<byte>, x: seq<byte>, rest: seq<seq<byte>>)
    requires |h| == 4 && FromLe(h) == |x|
    ensures FrameItems([x] + rest) == h + x + FrameItems(rest)
  {
    LeOfParsed(h);
    assert ([x] + rest)[1..] == rest;
  }

  lemma PrefixThrough(head: seq<byte>, f: seq<byte>, buf: seq<byte>)
    requires head <= buf && f <= buf[|head|..]
    ensures head + f <= buf
  {
    assert buf == head + buf[|head|..];
  }

  lemma UnframeUncons(buf: seq<byte>, count: nat, items: seq<seq<byte>>)
    requires count > 0 && UnframeItems(buf, count) == Ok(items)
    ensures items != [] && |buf| >= 4 + |items[0]| && FromLe(buf[..4]) == |items[0]|
    ensures items[0] == buf[4..4 + |items[0]|]
    ensures UnframeItems(buf[4 + |items[0]|..], count - 1) == Ok(items[1..])
  {
  }

  lemma {:induction false} UnframeItemsSound(buf: seq<byte>, count: nat, items: seq<seq<byte>>)
    requires UnframeItems(buf, count) == Ok(items)
    ensures |items| == count && FrameItems(items) <= buf
    ensures forall i :: 0 <= i < |items| ==> |items[i]| < U32
    decreases count
  {
    if count > 0 {
      UnframeUncons(buf, count, items);
      var h, x, rest := buf[..4], items[0], items[1..];
      UnframeItemsSound(buf[4 + |x|..], count - 1, rest);
      LeOfParsed(h);
      FrameCons(h, x, rest);
      assert h + x == buf[..4 + |x|];
      PrefixThrough(h + x, FrameItems(rest), buf);
      assert [x] + rest == items;
    }
  }

  /** Whatever decodes was framed: the frame of the answer is a prefix of the buffer. */
  lemma UnframeSound(buf: seq<byte>)
    requires Unframe(buf).Ok?
    ensures Fits(Unframe(buf).value) && Frame(Unframe(buf).value) <= buf
  {
    UnframeItemsSound(buf[4..], FromLe(buf[..4]), Unframe(buf).value);
    LeOfParsed(buf[..4]);
    var f := FrameItems(Unframe(buf).value);
    assert buf[4..][..|f|] == f;
    assert Frame(Unframe(buf).value) == buf[..4 + |f|];
  }

  /** Decoding inverts framing, whatever follows the frame, exactly on what fits in `u32`. */
  lemma RoundTripIffFits(items: seq<seq<byte>>, tail: seq<byte>)
    ensures Unframe(Frame(items) + tail) == Ok(items) <==> Fits(items)
  {
    var buf := Frame(items) + tail;
    if Fits(items) {
      FitsRoundTrips(items, tail);
    } else if Unframe(buf) == Ok(items) {
      UnframeSound(buf);
      assert false;
    }
  }

  /** A buffer decodes to `items` exactly when it starts with the frame of `items`. */
  lemma UnframeIffFramePrefix(buf: seq<byte>, items: seq<seq<byte>>)
    requires Fits(items)
    ensures Unframe(buf) == Ok(items) <==> Frame(items) <= buf
  {
    if Frame(items) <= buf {
      RoundTripIffFits(items, buf[|Frame(items)|..]);
      assert buf == Frame(items) + buf[|Frame(items)|..];
    }
    if Unframe(buf) == Ok(items) {
      UnframeSound(buf);
    }
  }

  // The layout, byte by byte

  /** Where element `k` starts, counted from behind the count. */
  function At(items: seq<seq<byte>>, k: nat): nat
    requires k <= |items|
  {
    if k == 0 then 0 else 4 + |items[0]| + At(items[1..], k - 1)
  }

  /** The four bytes from `at` on spell `n`, least significant first. */
  predicate Spells(buf: seq<byte>, at: nat, n: nat) {
    && at + 4 <= |buf|
    && buf[at] == n % 256 && buf[at + 1] == n / 256 % 256
    && buf[at + 2] == n / 65536 % 256 && buf[at + 3] == n / 16777216 % 256
  }

  lemma LeBytesSpell(n: nat)
    ensures Spells(LeBytes(n), 0, n)
  {
    var a := n / 256;
    var b := a / 256;
    var c := b / 256;
    assert LeDigits(n, 4) == [n % 256] + LeDigits(a, 3);
    assert LeDigits(a, 3) == [a % 256] + LeDigits(b, 2);
    assert LeDigits(b, 2) == [b % 256] + LeDigits(c, 1);
    assert LeDigits(c, 1) == [c % 256] + LeDigits(c / 256, 0);
    assert b == n / 65536 && c == n / 16777216;
  }

  /** `x` stands at `at` behind its length. */
  predicate ElementAt(buf: seq<byte>, at: nat, x: seq<byte>) {
    at + 4 + |x| <= |buf| && Spells(buf, at, |x|) && buf[at + 4..at + 4 + |x|] == x
  }

  lemma ElementFirst(h: seq<byte>, x: seq<byte>, rest: seq<byte>)
    requires |h| == 4 && Spells(h, 0, |x|)
    ensures ElementAt(h + x + rest, 0, x)
  {
  }

  lemma ElementLater(head: seq<byte>, buf: seq<byte>, at: nat, x: seq<byte>)
    requires ElementAt(buf, at, x)
    ensures ElementAt(head + buf, |head| + at, x)
  {
    assert forall i :: 0 <= i < |buf| ==> (head + buf)[|head| + i] == buf[i];
    assert (head + buf)[|head| + at + 4..|head| + at + 4 + |x|] == buf[at + 4..at + 4 + |x|];
  }

  lemma SpellsFirst(h: seq<byte>, rest: seq<byte>, n: nat)
    requires Spells(h, 0, n)
    ensures Spells(h + rest, 0, n)
  {
  }

  lemma {:induction false} ItemsLayout(items: seq<seq<byte>>, k: nat)
    requires k < |items| && forall i :: 0 <= i < |items| ==> |items[i]| < U32
    ensures ElementAt(FrameItems(items), At(items, k), items[k])
  {
    var h, x, rest := LeBytes(|items[0]|), items[0], FrameItems(items[1..]);
    if k == 0 {
      LeBytesSpell(|x|);
      ElementFirst(h, x, rest);
    } else {
      ItemsLayout(items[1..], k - 1);
      ElementLater(h + x, rest, At(items[1..], k - 1), items[k]);
    }
  }

  lemma {:induction false} ItemsLength(items: seq<seq<byte>>)
    ensures |FrameItems(items)| == At(items, |items|)
  {
    if items != [] { ItemsLength(items[1..]); }
  }

  /** A frame is the count, then each element behind its length, all lengths little-endian, and nothing else. */
  lemma FrameLayout(items: seq<seq<byte>>, k: nat)
    requires Fits(items)
    ensures |Frame(items)| == 4 + At(items, |items|) && Spells(Frame(items), 0, |items|)
    ensures k < |items| ==> ElementAt(Frame(items), 4 + At(items, k), items[k])
  {
    LeBytesSpell(|items|);
    SpellsFirst(LeBytes(|items|), FrameItems(items), |items|);
    ItemsLength(items);
    if k < |items| {
      ItemsLayout(items, k);
      ElementLater(LeBytes(|items|), FrameItems(items), At(items, k), items[k]);
    }
  }

  /** Cutting the elements at `m` cuts the bytes of one of them, not a length. */
  ghost predicate CutsElement(items: seq<seq<byte>>, m: int) {
    exists k :: 0 <= k < |items| && At(items, k) + 4 <= m < At(items, k) + 4 + |items[k]|
  }

  lemma CutLater(items: seq<seq<byte>>, m: nat)
    requires items != [] && m >= 4 + |items[0]|
    ensures CutsElement(items, m) <==> CutsElement(items[1..], m - 4 - |items[0]|)
  {
    var rest, n := items[1..], m - 4 - |items[0]|;
    if k :| 0 <= k < |items| && At(items, k) + 4 <= m < At(items, k) + 4 + |items[k]| {
      assert k > 0 && At(items, k) == 4 + |items[0]| + At(rest, k - 1) && items[k] == rest[k - 1];
    }
    if k :| 0 <= k < |rest| && At(rest, k) + 4 <= n < At(rest, k) + 4 + |rest[k]| {
      assert At(items, k + 1) == 4 + |items[0]| + At(rest, k) && items[k + 1] == rest[k];
    }
  }

  lemma CutFirst(items: seq<seq<byte>>, m: nat)
    requires items != [] && m < 4 + |items[0]|
    ensures CutsElement(items, m) <==> 4 <= m
  {
    assert At(items, 0) == 0;
    assert forall k :: 1 <= k < |items| ==> At(items, k) >= 4 + |items[0]|;
  }

  lemma CutInFirst(h: seq<byte>, x: seq<byte>, rest: seq<byte>, count: nat, m: nat)
    requires |h| == 4 && FromLe(h) == |x| && m < 4 + |x|
    ensures UnframeItems((h + x + rest)[..m], count + 1) == Err(if m < 4 then TruncatedHeader else TruncatedElement)
  {
    if m >= 4 { assert (h + x + rest)[..m][..4] == h; }
  }

  lemma {:induction false} TruncatedItems(items: seq<seq<byte>>, m: nat)
    requires (forall i :: 0 <= i < |items| ==> |items[i]| < U32) && m < |FrameItems(items)|
    ensures UnframeItems(FrameItems(items)[..m], |items|) ==
            Err(if CutsElement(items, m) then TruncatedElement else TruncatedHeader)
  {
    var h, x, rest := LeBytes(|items[0]|), items[0], FrameItems(items[1..]);
    LeRoundTrip(|x|);
    if m < 4 + |x| {
      CutFirst(items, m);
      CutInFirst(h, x, rest, |items| - 1, m);
    } else {
      var n := m - 4 - |x|;
      CutLater(items, m);
      assert (h + x + rest)[..m] == h + x + rest[..n];
      UnframeOne(h, x, rest[..n], |items| - 1);
      TruncatedItems(items[1..], n);
    }
  }

  lemma CutBehindCount(h: seq<byte>, body: seq<byte>, m: nat)
    requires |h| == 4 && m <= 4 + |body|
    ensures Unframe((h + body)[..m]) == if m < 4 then Err(TruncatedHeader) else UnframeItems(body[..m - 4], FromLe(h))
  {
    if m >= 4 { assert (h + body)[..m][..4] == h && (h + body)[..m][4..] == body[..m - 4]; }
  }

  lemma TruncatedBehind(h: seq<byte>, items: seq<seq<byte>>, m: nat)
    requires |h| == 4 && FromLe(h) == |items| && 4 <= m < 4 + |FrameItems(items)|
    requires forall i :: 0 <= i < |items| ==> |items[i]| < U32
    ensures Unframe((h + FrameItems(items))[..m]) ==
            Err(if CutsElement(items, m - 4) then TruncatedElement else TruncatedHeader)
  {
    CutBehindCount(h, FrameItems(items), m);
    TruncatedItems(items, m - 4);
  }

  /** Every frame cut short is reported: as a truncated element when the cut is inside one, else as a header. */
  lemma TruncatedFrame(items: seq<seq<byte>>, m: nat)
    requires Fits(items) && m < |Frame(items)|
    ensures Unframe(Frame(items)[..m]) == Err(if CutsElement(items, m - 4) then TruncatedElement else TruncatedHeader)
  {
    if m >= 4 {
      LeRoundTrip(|items|);
      TruncatedBehind(LeBytes(|items|), items, m);
    }
  }
}
