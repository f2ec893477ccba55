/**
 The tracing hook over one thread: a stack of runtime contexts and the propagation headers in the thread-local metadata.

 The context stack and the propagators belong to the OpenTelemetry library. Attaching pushes a new context, detaching a
 token on top pops it. For a token below the top both readings of the library are covered: nothing happens
 (`TopOnly`), or everything down to the token is popped (`Unwinding`). Injecting does nothing for an invalid span.
 */
module Tracing {
  // ---------- the metadata carrier ----------

  /** A multimap: the values of each key in the order of their insertion. */
  type Metadata = map<string, seq<string>>

  function Entries(m: Metadata, key: string): seq<string> {
    if key in m then m[key] else []
  }

  class MSEContextCarrier {
    var metadata: Metadata

    constructor (metadata: Metadata)
      ensures this.metadata == metadata
    {
      this.metadata := metadata;
    }

    method Get(key: string) returns (value: string)
      ensures value == if Entries(metadata, key) == [] then "" else Entries(metadata, key)[0]
    {
      if key in metadata && |metadata[key]| > 0 {
        return metadata[key][0];
      }
      value := "";
    }

    /** Leaves exactly one entry for the key and the other keys alone. */
    method Set(key: string, value: string)
      modifies this
      ensures metadata == old(metadata)[key := [value]]
    {
      metadata := metadata - {key};
      assert Entries(metadata, key) + [value] == [value];
      metadata := metadata[key := Entries(metadata, key) + [value]];
    }
  }

  // ---------- propagation ----------

  datatype Span = Span(traceId: string, spanId: string, sampled: bool, traceState: string)

  predicate IsValid(s: Span) {
    |s.traceId| == 32 && |s.spanId| == 16
  }

  const NO_SPAN := Span("", "", false, "")

  datatype PropagationType = B3_SingleHeader | B3_MultiHeader | Http

  /** The headers a propagator sets for a span. */
  function Headers(p: PropagationType, s: Span): seq<(string, string)> {
    match p
    case B3_SingleHeader => [("b3", s.traceId + "-" + s.spanId + "-" + if s.sampled then "1" else "0")]
    case B3_MultiHeader =>
      [("X-B3-TraceId", s.traceId), ("X-B3-SpanId", s.spanId), ("X-B3-Sampled", if s.sampled then "1" else "0")]
    case Http =>
      [("traceparent", "00-" + s.traceId + "-" + s.spanId + "-" + if s.sampled then "01" else "00"),
       ("tracestate", s.traceState)]
  }

  function SetAll(m: Metadata, headers: seq<(string, string)>): Metadata
    decreases |headers|
  {
    if headers == [] then m else SetAll(m[headers[0].0 := [headers[0].1]], headers[1..])
  }

  function Inject(p: PropagationType, s: Span, m: Metadata): Metadata {
    if IsValid(s) then SetAll(m, Headers(p, s)) else m
  }

  /** The header of this span, with exactly one entry for each of its keys. */
  ghost predicate Encodes(p: PropagationType, s: Span, m: Metadata) {
    forall h :: h in Headers(p, s) ==> Entries(m, h.0) == [h.1]
  }

  /** The spans look the same to this propagator. */
  predicate SameIdentity(p: PropagationType, a: Span, b: Span) {
    && a.traceId == b.traceId && a.spanId == b.spanId && a.sampled == b.sampled
    && (p.Http? ==> a.traceState == b.traceState)
  }

  lemma {:induction false} SetAllSets(m: Metadata, headers: seq<(string, string)>, i: nat)
    requires i < |headers| && forall j, k :: 0 <= j < k < |headers| ==> headers[j].0 != headers[k].0
    ensures Entries(SetAll(m, headers), headers[i].0) == [headers[i].1]
    decreases |headers|
  {
    var m' := m[headers[0].0 := [headers[0].1]];
    if i > 0 {
      SetAllSets(m', headers[1..], i - 1);
    } else {
      SetAllKeeps(m', headers[1..], headers[0].0);
    }
  }

  lemma {:induction false} SetAllKeeps(m: Metadata, headers: seq<(string, string)>, key: string)
    requires forall h :: h in headers ==> h.0 != key
    ensures Entries(SetAll(m, headers), key) == Entries(m, key)
    decreases |headers|
  {
    if headers != [] {
      SetAllKeeps(m[headers[0].0 := [headers[0].1]], headers[1..], key);
    }
  }

  lemma InjectEncodes(p: PropagationType, s: Span, m: Metadata)
    requires IsValid(s)
    ensures Encodes(p, s, Inject(p, s, m))
  {
    var hs := Headers(p, s);
    assert "X-B3-TraceId"[5] == 'T' && "X-B3-SpanId"[5] == 'S' && "X-B3-SpanId"[6] == 'p' && "X-B3-Sampled"[6] == 'a';
    assert "traceparent"[5] == 'p' && "tracestate"[5] == 's';
    forall h | h in hs ensures Entries(Inject(p, s, m), h.0) == [h.1] {
      var i :| 0 <= i < |hs| && hs[i] == h;
      SetAllSets(m, hs, i);
    }
  }

  /** Injecting touches only the headers of its format, and an invalid span's not at all. */
  lemma InjectFrames(p: PropagationType, s: Span, m: Metadata, key: string)
    requires IsValid(s) ==> forall h :: h in Headers(p, s) ==> h.0 != key
    ensures Entries(Inject(p, s, m), key) == Entries(m, key)
  {
    if IsValid(s) {
      SetAllKeeps(m, Headers(p, s), key);
    }
  }

  /** The headers after injecting a valid span, spelled out. */
  lemma InjectedHeaders(p: PropagationType, s: Span, m: Metadata)
    requires IsValid(s)
    ensures var m' := Inject(p, s, m);
            match p
            case B3_SingleHeader =>
              Entries(m', "b3") == [s.traceId + "-" + s.spanId + "-" + if s.sampled then "1" else "0"]
            case B3_MultiHeader =>
              && Entries(m', "X-B3-TraceId") == [s.traceId] && Entries(m', "X-B3-SpanId") == [s.spanId]
              && Entries(m', "X-B3-Sampled") == [if s.sampled then "1" else "0"]
            case Http =>
              && Entries(m', "traceparent")
                 == ["00-" + s.traceId + "-" + s.spanId + "-" + if s.sampled then "01" else "00"]
              && Entries(m', "tracestate") == [s.traceState]
  {
    InjectEncodes(p, s, m);
    var hs := Headers(p, s);
    assert hs[0] in hs && (|hs| > 1 ==> hs[1] in hs) && (|hs| > 2 ==> hs[2] in hs);
  }

  function Joined(s: Span): string {
    s.traceId + "-" + s.spanId + "-"
  }

  /** Both ids sit at fixed positions of a joined header, so equal headers have equal parts. */
  lemma JoinedIsInjective(prefix: string, a: Span, b: Span, flagA: string, flagB: string)
    requires IsValid(a) && IsValid(b)
    requires prefix + Joined(a) + flagA == prefix + Joined(b) + flagB
    ensures a.traceId == b.traceId && a.spanId == b.spanId && flagA == flagB
  {
    var n := |prefix|;
    var ha, hb := prefix + Joined(a) + flagA, prefix + Joined(b) + flagB;
    assert ha[n..n + 32] == a.traceId && hb[n..n + 32] == b.traceId;
    assert ha[n + 33..n + 49] == a.spanId && hb[n + 33..n + 49] == b.spanId;
    assert ha[n + 50..] == flagA && hb[n + 50..] == flagB;
  }

  lemma HeadersAreInjective(p: PropagationType, a: Span, b: Span)
    requires IsValid(a) && IsValid(b)
    ensures Headers(p, a) == Headers(p, b) <==> SameIdentity(p, a, b)
  {
    var ha, hb := Headers(p, a), Headers(p, b);
    if ha == hb {
      match p {
        case B3_SingleHeader =>
          var fa, fb := if a.sampled then "1" else "0", if b.sampled then "1" else "0";
          assert ha[0].1 == "" + Joined(a) + fa && hb[0].1 == "" + Joined(b) + fb;
          JoinedIsInjective("", a, b, fa, fb);
          assert fa[0] == fb[0];
        case B3_MultiHeader =>
          assert ha[0].1 == hb[0].1 && ha[1].1 == hb[1].1 && ha[2].1[0] == hb[2].1[0];
        case Http =>
          var fa, fb := if a.sampled then "01" else "00", if b.sampled then "01" else "00";
          assert ha[0].1 == "00-" + Joined(a) + fa && hb[0].1 == "00-" + Joined(b) + fb;
          JoinedIsInjective("00-", a, b, fa, fb);
          assert fa[1] == fb[1];
          assert ha[1].1 == hb[1].1;
      }
    }
  }

  /** Metadata that encodes one span encodes another one exactly when they look the same to the propagator. */
  lemma EncodesIsInjective(p: PropagationType, a: Span, b: Span, m: Metadata)
    requires IsValid(a) && IsValid(b) && Encodes(p, a, m)
    ensures Encodes(p, b, m) <==> SameIdentity(p, a, b)
  {
    HeadersAreInjective(p, a, b);
    var ha, hb := Headers(p, a), Headers(p, b);
    if Encodes(p, b, m) {
      forall i | 0 <= i < |ha| ensures ha[i] == hb[i] {
        assert ha[i] in ha && hb[i] in hb;
        assert ha[i].0 == hb[i].0;
        assert [ha[i].1][0] == [hb[i].1][0];
      }
      assert ha == hb;
    }
  }
}
