/**
 Length-prefixed framing (agent/crates/sr-proto/src/frame.rs): a four-byte little-endian length,
 then UTF-8 text. A stream is a sequence of bytes; reading past its end is the only I/O error.
 */
module Framing {
  import opened Options
  import opened Utf8

  datatype FrameError = Io | Closed | TooLarge(len: nat, max: nat) | NotUtf8

  datatype Result<T> = Ok(value: T) | Err(error: FrameError)

  /** The lengths a prefix can hold. */
  const LENGTHS := 0x1_0000_0000

  // ----- The length prefix -----

  function Le(n: nat): (b: seq<byte>)
    requires n < LENGTHS
    ensures |b| == 4
  {
    [(n % 256) as byte, (n / 256 % 256) as byte, (n / 65536 % 256) as byte, (n / 16777216) as byte]
  }

  function FromLe(b: seq<byte>): (n: nat)
    requires |b| == 4
    ensures n < LENGTHS
  {
    b[0] as nat + b[1] as nat * 256 + b[2] as nat * 65536 + b[3] as nat * 16777216
  }

  /** The number some bytes stand for, the least significant first. */
  function Number(b: seq<byte>): nat {
    if b == [] then 0 else b[0] as nat + 256 * Number(b[1..])
  }

  lemma NumberCons(x: byte, rest: seq<byte>)
    ensures Number([x] + rest) == x as nat + 256 * Number(rest)
  {
    assert ([x] + rest)[1..] == rest;
  }

  lemma LittleEndian(b: seq<byte>)
    requires |b| == 4
    ensures FromLe(b) == Number(b)
  {
    NumberCons(b[3], []);
    NumberCons(b[2], [b[3]]);
    NumberCons(b[1], [b[2], b[3]]);
    NumberCons(b[0], [b[1], b[2], b[3]]);
    assert [b[3]] + [] == [b[3]] && [b[2]] + [b[3]] == [b[2], b[3]];
    assert [b[1]] + [b[2], b[3]] == [b[1], b[2], b[3]] && [b[0]] + [b[1], b[2], b[3]] == b;
  }

  lemma FromLeLe(n: nat)
    requires n < LENGTHS
    ensures FromLe(Le(n)) == n
  {
    assert n / 65536 == n / 256 / 256 && n / 16777216 == n / 256 / 256 / 256;
  }

  lemma LeFromLe(b: seq<byte>)
    requires |b| == 4
    ensures Le(FromLe(b)) == b
  {
    var n := FromLe(b);
    var q := b[1] as nat + b[2] as nat * 256 + b[3] as nat * 65536;
    var p := b[2] as nat + b[3] as nat * 256;
    assert n == b[0] as nat + q * 256 && q == b[1] as nat + p * 256;
    assert n % 256 == b[0] as nat && n / 256 == q;
    assert q % 256 == b[1] as nat && q / 256 == p;
    assert p % 256 == b[2] as nat && p / 256 == b[3] as nat;
    assert n / 65536 == p && n / 16777216 == b[3] as nat;
  }

  // ----- One frame -----

  function Frame(t: Text): (b: seq<byte>)
    requires |Encode(t)| < LENGTHS
    ensures |b| == 4 + |Encode(t)|
  {
    Le(|Encode(t)|) + Encode(t)
  }

  /** What `read_frame` makes of a stream, and what is left of it. */
  function Read(b: seq<byte>, max: nat): (Result<Text>, seq<byte>) {
    if |b| < 4 then (Err(Closed), [])
    else
      var len, rest := FromLe(b[..4]), b[4..];
      if len > max then (Err(TooLarge(len, max)), rest)
      else if len == 0 then (Err(NotUtf8), rest)
      else if |rest| < len then (Err(Io), [])
      else match Decode(rest[..len])
        case Some(t) => (Ok(t), rest[len..])
        case None => (Err(NotUtf8), rest[len..])
  }

  class Stream {
    var data: seq<byte>

    constructor (bytes: seq<byte>)
      ensures data == bytes
    {
      data := bytes;
    }

    /** Fills a buffer of n bytes, or consumes what there is and reports the end. */
    method ReadExact(n: nat) returns (buf: Option<seq<byte>>)
      modifies this
      ensures if |old(data)| >= n then buf == Some(old(data)[..n]) && data == old(data)[n..]
              else buf == None && data == []
    {
      if |data| < n {
        data := [];
        return None;
      }
      buf := Some(data[..n]);
      data := data[n..];
    }

    method WriteAll(bytes: seq<byte>)
      modifies this
      ensures data == old(data) + bytes
    {
      data := data + bytes;
    }

    method ReadFrame(max: nat) returns (r: Result<Text>)
      modifies this
      ensures (r, data) == Read(old(data), max)
    {
      var header := ReadExact(4);
      if header.None? { return Err(Closed); }
      var len := FromLe(header.value);
      if len > max { return Err(TooLarge(len, max)); }
      if len == 0 { return Err(NotUtf8); }
      var buf := ReadExact(len);
      if buf.None? { return Err(Io); }
      match Decode(buf.value)
      case Some(t) => r := Ok(t);
      case None => r := Err(NotUtf8);
    }

    method WriteFrame(t: Text, max: nat) returns (r: Result<()>)
      modifies this
      ensures r == Ok(()) <==> |Encode(t)| <= max && |Encode(t)| < LENGTHS
      ensures r == Ok(()) ==> data == old(data) + Frame(t)
      ensures r != Ok(()) ==>
        && r == Err(TooLarge(if |Encode(t)| < LENGTHS then |Encode(t)| else 0xFFFF_FFFF, max))
        && data == old(data)
    {
      var bytes := Encode(t);
      if |bytes| >= LENGTHS { return Err(TooLarge(0xFFFF_FFFF, max)); }
      if |bytes| > max { return Err(TooLarge(|bytes|, max)); }
      WriteAll(Le(|bytes|));
      WriteAll(bytes);
      assert data == old(data) + (Le(|bytes|) + bytes);
      r := Ok(());
    }
  }

  // ----- One frame, both ways -----

  predicate InLimit(t: Text, max: nat) { t != [] && |Encode(t)| <= max }

  /** On the wire: the length in bytes, least significant first, and then the bytes. */
  lemma FrameIs(t: Text)
    requires |Encode(t)| < LENGTHS
    ensures Number(Frame(t)[..4]) == |Encode(t)| && Frame(t)[4..] == Encode(t)
  {
    assert Frame(t)[..4] == Le(|Encode(t)|);
    FromLeLe(|Encode(t)|);
    LittleEndian(Le(|Encode(t)|));
  }

  lemma ReadsBack(t: Text, rest: seq<byte>, max: nat)
    requires InLimit(t, max) && max < LENGTHS
    ensures Read(Frame(t) + rest, max) == (Ok(t), rest)
  {
    var bytes := Encode(t);
    var b := Frame(t) + rest;
    assert b[..4] == Le(|bytes|);
    FromLeLe(|bytes|);
    assert b[4..] == bytes + rest;
    assert b[4..][..|bytes|] == bytes && b[4..][|bytes|..] == rest;
    assert |bytes| > 0;
    DecodeEncode(t);
  }

  /** Never an altered payload: what is read was framed exactly so at the head of the stream. */
  lemma ReadIsFramed(b: seq<byte>, max: nat)
    requires max < LENGTHS && Read(b, max).0.Ok?
    ensures var (r, rest) := Read(b, max); InLimit(r.value, max) && b == Frame(r.value) + rest
  {
    var len := FromLe(b[..4]);
    var bytes := b[4..][..len];
    EncodeDecode(bytes);
    LeFromLe(b[..4]);
    assert b == b[..4] + (bytes + b[4..][len..]);
  }

  // ----- Streams -----

  predicate AllInLimit(ts: seq<Text>, max: nat) {
    max < LENGTHS && forall i :: 0 <= i < |ts| ==> InLimit(ts[i], max)
  }

  predicate Framable(ts: seq<Text>) { forall i :: 0 <= i < |ts| ==> |Encode(ts[i])| < LENGTHS }

  function Frames(ts: seq<Text>): seq<byte>
    requires Framable(ts)
  {
    if ts == [] then [] else Frame(ts[0]) + Frames(ts[1..])
  }

  /** Frame after frame, up to the first error. */
  function ReadAll(b: seq<byte>, max: nat): (seq<Text>, FrameError)
    decreases |b|
  {
    var (r, rest) := Read(b, max);
    if r.Err? then ([], r.error)
    else
      var (more, end) := ReadAll(rest, max);
      ([r.value] + more, end)
  }

  /** How many whole frames the first n bytes hold, and how many bytes of the next. */
  function Cut(ts: seq<Text>, max: nat, n: nat): (nat, nat)
    requires AllInLimit(ts, max)
  {
    if ts == [] || n < |Frame(ts[0])| then (0, n)
    else
      var (k, m) := Cut(ts[1..], max, n - |Frame(ts[0])|);
      (k + 1, m)
  }

  lemma ReadAllCons(t: Text, rest: seq<byte>, max: nat)
    requires InLimit(t, max) && max < LENGTHS
    ensures ReadAll(Frame(t) + rest, max) == (var (more, end) := ReadAll(rest, max); ([t] + more, end))
  {
    ReadsBack(t, rest, max);
  }

  lemma ReadsCut(t: Text, n: nat, max: nat)
    requires InLimit(t, max) && max < LENGTHS && n < |Frame(t)|
    ensures ReadAll(Frame(t)[..n], max) == ([], if n < 4 then Closed else Io)
  {
    var b := Frame(t)[..n];
    if n >= 4 {
      assert b[..4] == Le(|Encode(t)|);
      FromLeLe(|Encode(t)|);
      assert |Encode(t)| > 0;
    }
  }

  /**
   Cutting a stream of frames anywhere yields the whole frames before the cut, unaltered, and
   then `Io` if the cut is inside a body, `Closed` if it is at a boundary or inside a header.
   */
  lemma {:induction false} Truncated(ts: seq<Text>, n: nat, max: nat)
    requires AllInLimit(ts, max)
    requires n <= |Frames(ts)|
    ensures var (k, m) := Cut(ts, max, n);
      k <= |ts| && ReadAll(Frames(ts)[..n], max) == (ts[..k], if m < 4 then Closed else Io)
  {
    if ts == [] {
    } else if n < |Frame(ts[0])| {
      assert Frames(ts)[..n] == Frame(ts[0])[..n];
      ReadsCut(ts[0], n, max);
    } else {
      Truncated(ts[1..], n - |Frame(ts[0])|, max);
      PastFirst(ts, n, max);
    }
  }

  lemma PastFirst(ts: seq<Text>, n: nat, max: nat)
    requires AllInLimit(ts, max) && ts != [] && |Frame(ts[0])| <= n <= |Frames(ts)|
    requires var (k, m) := Cut(ts[1..], max, n - |Frame(ts[0])|);
      && k < |ts|
      && ReadAll(Frames(ts[1..])[..n - |Frame(ts[0])|], max) == (ts[1..][..k], if m < 4 then Closed else Io)
    ensures var (k, m) := Cut(ts[1..], max, n - |Frame(ts[0])|);
      ReadAll(Frames(ts)[..n], max) == (ts[..k+1], if m < 4 then Closed else Io)
  {
    var f, rest := Frame(ts[0]), Frames(ts[1..]);
    TakePast(f, rest, n);
    ReadAllCons(ts[0], rest[..n - |f|], max);
    TakeOneMore(ts, Cut(ts[1..], max, n - |f|).0);
  }

  lemma TakePast<T>(a: seq<T>, b: seq<T>, n: nat)
    requires |a| <= n <= |a + b|
    ensures (a + b)[..n] == a + b[..n - |a|]
  {
  }

  lemma TakeOneMore<T>(s: seq<T>, k: nat)
    requires k < |s|
    ensures [s[0]] + s[1..][..k] == s[..k+1]
  {
  }

  lemma {:induction false} CutWhole(ts: seq<Text>, max: nat)
    requires AllInLimit(ts, max)
    ensures Cut(ts, max, |Frames(ts)|) == (|ts|, 0)
  {
    if ts != [] { CutWhole(ts[1..], max); }
  }

  /** A whole stream reads back as exactly its payloads, then closes. */
  lemma StreamRoundTrip(ts: seq<Text>, max: nat)
    requires AllInLimit(ts, max)
    ensures ReadAll(Frames(ts), max) == (ts, Closed)
  {
    Truncated(ts, |Frames(ts)|, max);
    CutWhole(ts, max);
    assert Frames(ts)[..|Frames(ts)|] == Frames(ts) && ts[..|ts|] == ts;
  }

  // ----- Through the two methods -----

  /** The payloads that are written. */
  function Fitting(ts: seq<Text>, max: nat): (r: seq<Text>)
    ensures forall i :: 0 <= i < |r| ==> |Encode(r[i])| <= max
  {
    if ts == [] then []
    else
      var n := |ts| - 1;
      Fitting(ts[..n], max) + (if |Encode(ts[n])| <= max then [ts[n]] else [])
  }

  lemma {:induction false} FramesSnoc(ts: seq<Text>, t: Text)
    requires Framable(ts) && |Encode(t)| < LENGTHS
    ensures Framable(ts + [t]) && Frames(ts + [t]) == Frames(ts) + Frame(t)
  {
    if ts == [] {
      assert [] + [t] == [t] && [t][1..] == [];
    } else {
      FramesSnoc(ts[1..], t);
      assert (ts + [t])[1..] == ts[1..] + [t];
      assert Frame(ts[0]) + (Frames(ts[1..]) + Frame(t)) == Frame(ts[0]) + Frames(ts[1..]) + Frame(t);
    }
  }

  lemma EmptyStops(rest: seq<byte>, max: nat)
    ensures Encode([]) == [] && Read(Frame([]) + rest, max) == (Err(NotUtf8), rest)
  {
    var b := Frame([]) + rest;
    assert b[..4] == Le(0) && b[4..] == rest;
    FromLeLe(0);
  }

  lemma {:induction false} StopsAtEmpty(ts: seq<Text>, n: nat, max: nat)
    requires n < |ts| && Framable(ts) && AllInLimit(ts[..n], max) && ts[n] == []
    ensures ReadAll(Frames(ts), max) == (ts[..n], NotUtf8)
  {
    if n == 0 {
      EmptyStops(Frames(ts[1..]), max);
    } else {
      assert ts[..n][0] == ts[0] && ts[..n][1..] == ts[1..][..n-1];
      StopsAtEmpty(ts[1..], n - 1, max);
      ReadAllCons(ts[0], Frames(ts[1..]), max);
      assert [ts[0]] + ts[1..][..n-1] == ts[..n];
    }
  }

  /** Frame after frame, up to the first error. */
  method Received(s: Stream, max: nat) returns (got: seq<Text>, end: FrameError)
    modifies s
    ensures (got, end) == ReadAll(old(s.data), max)
  {
    got := [];
    while true
      invariant ReadAll(old(s.data), max).0 == got + ReadAll(s.data, max).0
      invariant ReadAll(old(s.data), max).1 == ReadAll(s.data, max).1
      decreases |s.data|
    {
      ghost var rest := Read(s.data, max).1;
      var r := s.ReadFrame(max);
      if r.Err? {
        assert got + [] == got;
        return got, r.error;
      }
      assert got + ([r.value] + ReadAll(rest, max).0) == got + [r.value] + ReadAll(rest, max).0;
      got := got + [r.value];
    }
  }

  lemma WhatIsReceived(sent: seq<Text>, max: nat)
    requires max < LENGTHS && forall i :: 0 <= i < |sent| ==> |Encode(sent[i])| <= max
    ensures var (got, end) := ReadAll(Frames(sent), max);
      && ([] !in sent ==> got == sent && end == Closed)
      && ([] in sent ==> got < sent && [] !in got && sent[|got|] == [] && end == NotUtf8)
  {
    if [] in sent {
      var n := FirstEmpty(sent);
      StopsAtEmpty(sent, n, max);
    } else {
      StreamRoundTrip(sent, max);
    }
  }

  lemma FirstEmpty(ts: seq<Text>) returns (n: nat)
    requires [] in ts
    ensures n < |ts| && ts[n] == [] && [] !in ts[..n]
  {
    n := 0;
    while ts[n] != []
      invariant n < |ts| && [] !in ts[..n] && [] in ts[n..]
      decreases |ts| - n
    {
      n := n + 1;
    }
  }

  /**
   Payloads written one after the other and read until an error: received is what was written,
   and then the close. An empty payload is written, too, but reads as an error and ends it.
   */
  method Exchange(s: Stream, ts: seq<Text>, max: nat) returns (sent: seq<Text>, got: seq<Text>, end: FrameError)
    requires max < LENGTHS && s.data == []
    modifies s
    ensures sent == Fitting(ts, max)
    ensures [] !in sent ==> got == sent && end == Closed
    ensures [] in sent ==> got < sent && [] !in got && sent[|got|] == [] && end == NotUtf8
  {
    sent := [];
    for i := 0 to |ts|
      invariant sent == Fitting(ts[..i], max) && Framable(sent) && s.data == Frames(sent)
    {
      var r := s.WriteFrame(ts[i], max);
      assert ts[..i+1][..i] == ts[..i];
      if r.Ok? {
        FramesSnoc(sent, ts[i]);
        sent := sent + [ts[i]];
      }
    }
    assert ts[..|ts|] == ts;
    got, end := Received(s, max);
    WhatIsReceived(sent, max);
  }

  /** One to three stray bytes read as a clean close, though no frame boundary is there. */
  lemma PartialHeaderIsClosed(b: seq<byte>, max: nat)
    requires 0 < |b| < 4
    ensures ReadAll(b, max) == ([], Closed)
    ensures forall ts :: AllInLimit(ts, max) ==> b != Frames(ts)
  {
    forall ts | AllInLimit(ts, max) ensures b != Frames(ts) {
      if ts != [] { assert |Frames(ts)| >= 4; }
    }
  }
}
