/** Call audio: samples framed as 16-bit integers behind a sample-rate header, the fade at the ends
    of a received chunk, and the times chunks are played at. Samples and times are reals. */
module CallAudio {
  import opened Common
  import opened Base64Url

  // ---- Samples ----

  /** `Math.round`: halves go up. */
  function Round(x: real): int {
    (x + 0.5).Floor
  }

  function Clamp(n: int): int {
    if n < -32768 then -32768 else if n > 32767 then 32767 else n
  }

  function Quantized(x: real): (n: int)
    ensures -32768 <= n <= 32767
  {
    Clamp(Round(x * 32768.0))
  }

  function Sample(n: int): real {
    n as real / 32768.0
  }

  function Magnitude(x: real): real {
    if x < 0.0 then -x else x
  }

  /** A sample in [-1, 1] comes back within 1/32768, and within half of that if it was not clamped.
      An integer comes back as it is. */
  lemma QuantizingError(x: real)
    requires -1.0 <= x <= 1.0
    ensures Magnitude(Sample(Quantized(x)) - x) <= 1.0 / 32768.0
    ensures Quantized(x) == Round(x * 32768.0) ==> Magnitude(Sample(Quantized(x)) - x) <= 1.0 / 65536.0
    ensures Quantized(x) != Round(x * 32768.0) ==> Round(x * 32768.0) == 32768
  {
    var y := x * 32768.0;
    var n := Round(y);
    assert n as real <= y + 0.5 < n as real + 1.0;
    assert -32768.0 <= y <= 32768.0;
    assert Sample(Quantized(x)) - x == (Quantized(x) as real - y) / 32768.0;
  }

  lemma QuantizingIsExact(n: int)
    requires -32768 <= n <= 32767
    ensures Quantized(Sample(n)) == n
  {
    assert Sample(n) * 32768.0 == n as real;
  }

  // ---- Frames ----

  function Low16(n: int): Byte {
    n % 0x1_0000 % 256
  }

  function High16(n: int): Byte {
    n % 0x1_0000 / 256
  }

  function Signed16(low: Byte, high: Byte): int {
    var u := low + 256 * high;
    if u >= 0x8000 then u - 0x1_0000 else u
  }

  function Pcm(ints: seq<int>): seq<Byte> {
    if ints == [] then []
    else
      var n := |ints| - 1;
      Pcm(ints[..n]) + [Low16(ints[n]), High16(ints[n])]
  }

  function FromPcm(bytes: seq<Byte>): seq<int>
    requires |bytes| % 2 == 0
  {
    if bytes == [] then []
    else
      var n := |bytes| - 2;
      FromPcm(bytes[..n]) + [Signed16(bytes[n], bytes[n + 1])]
  }

  /** `setUint32`, little end first. */
  function Header(rate: nat): seq<Byte> {
    [rate % 256, rate / 256 % 256, rate / 256 / 256 % 256, rate / 256 / 256 / 256 % 256]
  }

  function Rate(header: seq<Byte>): nat
    requires |header| >= 4
  {
    var a: int, b: int, c: int, d: int := header[0], header[1], header[2], header[3];
    a + 256 * (b + 256 * (c + 256 * d))
  }

  function AllQuantized(samples: seq<real>): seq<int> {
    seq(|samples|, i requires 0 <= i < |samples| => Quantized(samples[i]))
  }

  function Frame(samples: seq<real>, rate: nat): seq<Byte> {
    Header(rate) + Pcm(AllQuantized(samples))
  }

  function EncodeFrame(samples: seq<real>, rate: nat): string {
    Encode(Frame(samples, rate))
  }

  /** Nothing is played of what is not Base64, has fewer than five bytes, or an odd number. */
  function DecodeFrame(chunk: string): Option<(nat, seq<int>)> {
    var binary := Atob(chunk);
    if binary.None? || !Latin1(binary.value) then None
    else
      var bytes := Codes(binary.value);
      if |bytes| < 5 || |bytes| % 2 == 1 then None
      else Some((Rate(bytes), FromPcm(bytes[4..])))
  }

  lemma {:induction false} PcmComesBack(ints: seq<int>)
    requires forall i | 0 <= i < |ints| :: -32768 <= ints[i] <= 32767
    ensures |Pcm(ints)| == 2 * |ints| && FromPcm(Pcm(ints)) == ints
  {
    if ints != [] {
      var n := |ints| - 1;
      assert ints == ints[..n] + [ints[n]];
      PcmComesBack(ints[..n]);
      SignedComesBack(ints[n]);
      hide Low16, High16, Signed16;
      assert Pcm(ints)[..2 * n] == Pcm(ints[..n]);
    }
  }

  lemma SignedComesBack(n: int)
    requires -32768 <= n <= 32767
    ensures Signed16(Low16(n), High16(n)) == n
  {
    var u := n % 0x1_0000;
    assert u == if n < 0 then n + 0x1_0000 else n;
  }

  lemma HeaderComesBack(rate: nat)
    ensures Rate(Header(rate)) == rate % 0x1_0000_0000
  {
    ThreeBytes(rate / 256);
    assert rate % 0x1_0000_0000 == rate % 256 + 256 * (rate / 256 % 0x100_0000);
  }

  lemma TwoBytes(n: nat)
    ensures n % 0x1_0000 == n % 256 + 256 * (n / 256 % 256)
  {
    var q := n / 256;
    var rest := n % 256 + 256 * (q % 256);
    assert n == 0x1_0000 * (q / 256) + rest && rest < 0x1_0000;
  }

  lemma ThreeBytes(n: nat)
    ensures n % 0x100_0000 == n % 256 + 256 * (n / 256 % 256 + 256 * (n / 256 / 256 % 256))
  {
    TwoBytes(n / 256);
    assert n % 0x100_0000 == n % 256 + 256 * (n / 256 % 0x1_0000);
  }

  lemma FrameParts(samples: seq<real>, rate: nat)
    ensures var bytes := Frame(samples, rate);
            && |bytes| == 4 + 2 * |samples|
            && Rate(bytes) == rate % 0x1_0000_0000 && bytes[4..] == Pcm(AllQuantized(samples))
  {
    var header, pcm := Header(rate), Pcm(AllQuantized(samples));
    PcmComesBack(AllQuantized(samples));
    HeaderComesBack(rate);
    assert |header| == 4;
    hide Header, Pcm, AllQuantized;
    assert (header + pcm)[4..] == pcm && Rate(header + pcm) == Rate(header);
  }

  /** Rate and integers of every frame come back, before the fade; a rate beyond 32 bits is cut. Of
      an empty frame nothing does. */
  lemma FrameRoundTrip(samples: seq<real>, rate: nat)
    ensures DecodeFrame(EncodeFrame(samples, rate))
         == if samples == [] then None else Some((rate % 0x1_0000_0000, AllQuantized(samples)))
  {
    hide Atob, Encode, Latin1, Codes, Binary, Pcm, FromPcm, Header, Rate, Quantized, Frame;
    PcmComesBack(AllQuantized(samples));
    AtobOfBtoa(Frame(samples, rate));
    FrameParts(samples, rate);
  }

  // ---- The loops ----

  const STEP := 8192

  /** What `onaudioprocess` sends: the integers, the header, the bytes as a string built in steps. */
  method Chunk(input: array<real>, rate: nat) returns (chunk: string)
    ensures chunk == EncodeFrame(input[..], rate)
  {
    var ints := new int[input.Length];
    for i := 0 to input.Length
      invariant ints[..i] == AllQuantized(input[..i])
    {
      ints[i] := Quantized(input[i]);
    }
    assert ints[..] == AllQuantized(input[..]);
    var full := Header(rate) + Pcm(ints[..]);
    hide Header, Pcm;
    var binary := BinaryInSteps(full);
    CodesOfBinary(full);
    chunk := Btoa(binary).value;
  }

  method BinaryInSteps(full: seq<Byte>) returns (binary: string)
    ensures binary == Binary(full)
  {
    binary := "";
    var i := 0;
    while i < |full|
      invariant binary == Binary(full[..if i < |full| then i else |full|])
    {
      var next := if i + STEP < |full| then i + STEP else |full|;
      assert full[..next] == full[..i] + full[i..next];
      binary := binary + Binary(full[i..next]);
      i := i + STEP;
    }
  }

  // ---- The fade ----

  function FadeLength(n: nat): nat {
    if n / 8 < 64 then n / 8 else 64
  }

  function Softened(x: real, i: nat, length: nat): real
    requires i < length
  {
    x * (i as real / length as real)
  }

  function Faded(samples: seq<real>): seq<real> {
    var n := |samples|;
    var length := FadeLength(n);
    seq(n, i requires 0 <= i < n =>
      if i < length then Softened(samples[i], i, length)
      else if n - 1 - i < length then Softened(samples[i], n - 1 - i, length)
      else samples[i])
  }

  /** In and out at once, in place; the two ends never meet. */
  method Fade(samples: array<real>)
    modifies samples
    ensures samples[..] == Faded(old(samples[..]))
  {
    var n := samples.Length;
    var length := FadeLength(n);
    ghost var was := samples[..];
    hide Softened;
    for i := 0 to length
      invariant forall k | 0 <= k < n ::
        samples[k] == if k < i || n - 1 - k < i then Faded(was)[k] else was[k]
    {
      samples[i] := Softened(samples[i], i, length);
      samples[n - 1 - i] := Softened(samples[n - 1 - i], i, length);
    }
  }

  /** The fade makes no sample larger and turns none around, starts and ends in silence if the chunk
      is long enough to be faded, and leaves all but two disjoint ends alone. */
  lemma FadeOnlySoftens(samples: seq<real>, i: nat)
    requires i < |samples|
    ensures var n, length := |samples|, FadeLength(|samples|);
            && |Faded(samples)| == n && 2 * length <= n
            && Magnitude(Faded(samples)[i]) <= Magnitude(samples[i])
            && Faded(samples)[i] * samples[i] >= 0.0
            && (length <= i < n - length ==> Faded(samples)[i] == samples[i])
            && (length > 0 && (i == 0 || i == n - 1) ==> Faded(samples)[i] == 0.0)
  {
    hide Softened;
    var n, length := |samples|, FadeLength(|samples|);
    if i < length {
      Softens(samples[i], i, length);
    } else if n - 1 - i < length {
      Softens(samples[i], n - 1 - i, length);
    } else {
      SquareIsPositive(samples[i]);
    }
  }

  lemma SquareIsPositive(x: real)
    ensures x * x >= 0.0
  {
  }

  lemma Softens(x: real, i: nat, length: nat)
    requires i < length
    ensures Magnitude(Softened(x, i, length)) <= Magnitude(x) && Softened(x, i, length) * x >= 0.0
    ensures i == 0 ==> Softened(x, i, length) == 0.0
  {
    var f := i as real / length as real;
    assert 0.0 <= f <= 1.0;
    if i == 0 { assert f == 0.0; }
    ScalesDown(x, f);
    SameSide(x, f);
  }

  lemma ScalesDown(x: real, f: real)
    requires 0.0 <= f <= 1.0
    ensures Magnitude(x * f) <= Magnitude(x)
  {
    var size := Magnitude(x);
    ProductIsPositive(size, f);
    ProductIsPositive(size, 1.0 - f);
    assert size * (1.0 - f) == size - size * f;
    assert x * f == if x < 0.0 then -(size * f) else size * f;
  }

  lemma ProductIsPositive(x: real, y: real)
    requires x >= 0.0 && y >= 0.0
    ensures x * y >= 0.0
  {
  }

  lemma SameSide(x: real, f: real)
    requires f >= 0.0
    ensures (x * f) * x >= 0.0
  {
    SquareIsPositive(x);
    ProductIsPositive(x * x, f);
    assert (x * f) * x == (x * x) * f;
  }

  // ---- When a chunk is played ----

  const LEAD := 0.25
  const STALE := 0.5

  datatype Epoch = Epoch(startTime: real, chunkDuration: real, senderRate: nat)

  datatype Arrival = Arrival(seqNo: nat, now: real, duration: real, rate: nat)

  function Times(n: nat, duration: real): real {
    n as real * duration
  }

  /** The epoch afterwards and the time the chunk starts. */
  function Schedule(epoch: Option<Epoch>, a: Arrival): (Epoch, real) {
    var e := if epoch.None? || epoch.value.senderRate != a.rate
             then Epoch(a.now + LEAD - Times(a.seqNo, a.duration), a.duration, a.rate)
             else epoch.value;
    var t := e.startTime + Times(a.seqNo, e.chunkDuration);
    var f := if t < a.now - STALE then e.(startTime := a.now + LEAD - Times(a.seqNo, e.chunkDuration)) else e;
    var u := f.startTime + Times(a.seqNo, f.chunkDuration);
    (f, if u < a.now then a.now else u)
  }

  function EpochAfter(arrivals: seq<Arrival>): Option<Epoch> {
    if arrivals == [] then None
    else Some(Schedule(EpochAfter(arrivals[..|arrivals| - 1]), arrivals[|arrivals| - 1]).0)
  }

  function StartOf(arrivals: seq<Arrival>, i: nat): real
    requires i < |arrivals|
  {
    Schedule(EpochAfter(arrivals[..i]), arrivals[i]).1
  }

  /** Chunks of one sender's rate, in order, some possibly lost, while the clock goes on. */
  ghost predicate InOrder(arrivals: seq<Arrival>) {
    && (forall i, j | 0 <= i < j < |arrivals| ::
          arrivals[i].seqNo < arrivals[j].seqNo && arrivals[i].now <= arrivals[j].now)
    && (forall i | 0 <= i < |arrivals| :: arrivals[i].rate == arrivals[0].rate && arrivals[i].duration >= 0.0)
  }

  /** Neither late nor moved: it plays at its place in the epoch. */
  ghost predicate Unclipped(arrivals: seq<Arrival>, i: nat)
    requires i < |arrivals|
  {
    var e := EpochAfter(arrivals[..i + 1]).value;
    e.startTime + Times(arrivals[i].seqNo, e.chunkDuration) >= arrivals[i].now
  }

  lemma AfterOneMore(arrivals: seq<Arrival>, i: nat)
    requires i < |arrivals|
    ensures EpochAfter(arrivals[..i + 1]) == Some(Schedule(EpochAfter(arrivals[..i]), arrivals[i]).0)
  {
    assert arrivals[..i + 1][..i] == arrivals[..i];
  }

  lemma {:induction false} EpochIsTheFirsts(arrivals: seq<Arrival>, i: nat)
    requires InOrder(arrivals) && 0 < i <= |arrivals|
    ensures var e := EpochAfter(arrivals[..i]);
            e.Some? && e.value.senderRate == arrivals[0].rate && e.value.chunkDuration == arrivals[0].duration
  {
    AfterOneMore(arrivals, i - 1);
    if i > 1 { EpochIsTheFirsts(arrivals, i - 1); }
    hide EpochAfter;
  }

  /** Re-anchoring only moves the start of the epoch later. */
  lemma {:induction false} EpochOnlyMovesLater(arrivals: seq<Arrival>, i: nat, j: nat)
    requires InOrder(arrivals) && 0 < i <= j <= |arrivals|
    ensures EpochAfter(arrivals[..i]).Some? && EpochAfter(arrivals[..j]).Some?
    ensures EpochAfter(arrivals[..i]).value.startTime <= EpochAfter(arrivals[..j]).value.startTime
    decreases j
  {
    hide EpochAfter, Times;
    EpochIsTheFirsts(arrivals, i);
    EpochIsTheFirsts(arrivals, j);
    if i < j {
      EpochOnlyMovesLater(arrivals, i, j - 1);
      EpochIsTheFirsts(arrivals, j - 1);
      AfterOneMore(arrivals, j - 1);
    }
  }

  /** A chunk starts at its place in the epoch as it is after it, or now if that is over. */
  lemma StartIs(arrivals: seq<Arrival>, i: nat)
    requires i < |arrivals|
    ensures var e := EpochAfter(arrivals[..i + 1]).value;
            var u := e.startTime + Times(arrivals[i].seqNo, e.chunkDuration);
            StartOf(arrivals, i) == if u < arrivals[i].now then arrivals[i].now else u
  {
    hide EpochAfter, Times;
    AfterOneMore(arrivals, i);
  }

  lemma TimesGrows(m: nat, n: nat, d: real)
    requires m < n && d >= 0.0
    ensures Times(m, d) + d <= Times(n, d)
  {
    var k := n - m;
    assert Times(n, d) == Times(m, d) + k as real * d;
    assert (k - 1) as real * d >= 0.0;
    assert k as real * d == (k - 1) as real * d + d;
  }

  /** Of chunks in order none starts before it has come, none before an earlier one, and two that
      are not clipped to now start at least a chunk apart, also across a re-anchoring. */
  lemma ChunksDoNotCollide(arrivals: seq<Arrival>, i: nat, j: nat)
    requires InOrder(arrivals) && i < j < |arrivals|
    ensures StartOf(arrivals, i) >= arrivals[i].now
    ensures StartOf(arrivals, i) <= StartOf(arrivals, j)
    ensures Unclipped(arrivals, i) && Unclipped(arrivals, j) ==>
              StartOf(arrivals, j) - StartOf(arrivals, i) >= arrivals[0].duration
  {
    hide EpochAfter, StartOf, Times;
    StartIs(arrivals, i);
    StartIs(arrivals, j);
    EpochIsTheFirsts(arrivals, i + 1);
    EpochIsTheFirsts(arrivals, j + 1);
    EpochOnlyMovesLater(arrivals, i + 1, j + 1);
    assert arrivals[0].duration >= 0.0;
    TimesGrows(arrivals[i].seqNo, arrivals[j].seqNo, arrivals[0].duration);
  }

  /** A chunk is clipped exactly if its place in the epoch has passed by no more than the half
      second that is tolerated. */
  lemma ClippedExactlyIfLate(arrivals: seq<Arrival>, i: nat)
    requires i < |arrivals|
    requires EpochAfter(arrivals[..i]).Some? && EpochAfter(arrivals[..i]).value.senderRate == arrivals[i].rate
    ensures var e := EpochAfter(arrivals[..i]).value;
            var t := e.startTime + Times(arrivals[i].seqNo, e.chunkDuration);
            !Unclipped(arrivals, i) <==> arrivals[i].now - 0.5 <= t < arrivals[i].now
  {
    hide EpochAfter, Times;
    AfterOneMore(arrivals, i);
  }

  /** Where the last stretch of arrivals with the rate of this one begins. */
  function FormatOf(arrivals: seq<Arrival>, i: nat): (f: nat)
    requires i < |arrivals|
    ensures f <= i
  {
    if i == 0 || arrivals[i - 1].rate != arrivals[i].rate then i else FormatOf(arrivals, i - 1)
  }

  /** The time of a chunk when chunk `k` plays a lead after it came and chunks are as long as `f`. */
  function Place(arrivals: seq<Arrival>, k: nat, f: nat, i: nat): real
    requires k < |arrivals| && f < |arrivals| && i < |arrivals|
  {
    arrivals[k].now + LEAD + (arrivals[i].seqNo - arrivals[k].seqNo) as real * arrivals[f].duration
  }

  /** The last arrival before or at this one at which the rate changed or the chunk was stale. */
  function AnchorOf(arrivals: seq<Arrival>, i: nat): (k: nat)
    requires i < |arrivals|
    ensures k <= i
  {
    if i == 0 || arrivals[i - 1].rate != arrivals[i].rate then i
    else
      var k := AnchorOf(arrivals, i - 1);
      if Place(arrivals, k, FormatOf(arrivals, i), i) < arrivals[i].now - STALE then i else k
  }

  ghost predicate EpochFits(e: Epoch, arrivals: seq<Arrival>, i: nat)
    requires i < |arrivals|
  {
    var k, d := AnchorOf(arrivals, i), arrivals[FormatOf(arrivals, i)].duration;
    && e.senderRate == arrivals[i].rate && e.chunkDuration == d
    && e.startTime == arrivals[k].now + LEAD - Times(arrivals[k].seqNo, d)
  }

  lemma PlaceInEpoch(e: Epoch, arrivals: seq<Arrival>, k: nat, f: nat, i: nat)
    requires k < |arrivals| && f < |arrivals| && i < |arrivals| && e.chunkDuration == arrivals[f].duration
    requires e.startTime == arrivals[k].now + LEAD - Times(arrivals[k].seqNo, e.chunkDuration)
    ensures e.startTime + Times(arrivals[i].seqNo, e.chunkDuration) == Place(arrivals, k, f, i)
    ensures Place(arrivals, i, f, i) == arrivals[i].now + LEAD
  {
    var m, n, d := arrivals[k].seqNo as real, arrivals[i].seqNo as real, e.chunkDuration;
    assert (arrivals[i].seqNo - arrivals[k].seqNo) as real == n - m;
    assert (n - m) * d == n * d - m * d;
  }

  lemma {:induction false} EpochIsItsAnchors(arrivals: seq<Arrival>, i: nat)
    requires i < |arrivals|
    ensures EpochAfter(arrivals[..i + 1]).Some? && EpochFits(EpochAfter(arrivals[..i + 1]).value, arrivals, i)
  {
    AfterOneMore(arrivals, i);
    if i == 0 {
      assert arrivals[..0] == [] && EpochAfter([]) == None;
    } else {
      EpochIsItsAnchors(arrivals, i - 1);
    }
    hide EpochAfter, Times, Place;
    if i > 0 && arrivals[i - 1].rate == arrivals[i].rate {
      var e := EpochAfter(arrivals[..i]).value;
      PlaceInEpoch(e, arrivals, AnchorOf(arrivals, i - 1), FormatOf(arrivals, i), i);
    } else {
      FirstOfItsRate(arrivals[i]);
    }
  }

  lemma FirstOfItsRate(a: Arrival)
    ensures var e := Epoch(a.now + LEAD - Times(a.seqNo, a.duration), a.duration, a.rate);
            forall epoch: Option<Epoch> | epoch.None? || epoch.value.senderRate != a.rate ::
              Schedule(epoch, a) == (e, a.now + LEAD)
  {
    hide Times;
  }

  /** Of any arrivals, in any order and at any rates: a chunk plays at its distance in chunks from the
      last one at which the rate changed or that was more than half a second late, which plays a
      quarter of a second after it came; or at once if that is over. */
  lemma PlaysFromItsAnchor(arrivals: seq<Arrival>, i: nat)
    requires i < |arrivals|
    ensures var k := AnchorOf(arrivals, i);
            var place := Place(arrivals, k, FormatOf(arrivals, i), i);
            && StartOf(arrivals, i) == (if place < arrivals[i].now then arrivals[i].now else place)
            && (k == i ==> StartOf(arrivals, i) == arrivals[i].now + 0.25)
  {
    EpochIsItsAnchors(arrivals, i);
    StartIs(arrivals, i);
    hide EpochAfter, StartOf, Times;
    var e := EpochAfter(arrivals[..i + 1]).value;
    PlaceInEpoch(e, arrivals, AnchorOf(arrivals, i), FormatOf(arrivals, i), i);
    hide Place;
  }

  /** The ref that holds the epoch. */
  class Playout {
    var epoch: Option<Epoch>

    constructor ()
      ensures epoch == None
    {
      epoch := None;
    }

    method Append(a: Arrival) returns (start: real)
      modifies this
      ensures epoch == Some(Schedule(old(epoch), a).0) && start == Schedule(old(epoch), a).1
    {
      hide Times;
      if epoch.None? || epoch.value.senderRate != a.rate {
        epoch := Some(Epoch(a.now + LEAD - Times(a.seqNo, a.duration), a.duration, a.rate));
      }
      var scheduleTime := epoch.value.startTime + Times(a.seqNo, epoch.value.chunkDuration);
      if scheduleTime < a.now - STALE {
        epoch := Some(epoch.value.(startTime := a.now + LEAD - Times(a.seqNo, epoch.value.chunkDuration)));
        scheduleTime := epoch.value.startTime + Times(a.seqNo, epoch.value.chunkDuration);
      }
      start := if scheduleTime < a.now then a.now else scheduleTime;
    }
  }
}
