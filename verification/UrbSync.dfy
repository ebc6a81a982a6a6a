/** When the reader of a connection stays in step with the PDUs its client sends. */
module UrbSync {
  import opened Bytes
  import opened UrbHeaders
  import opened UrbReader

  /** One PDU as a client sends it: a header and what the protocol puts behind it. */
  datatype Pdu = Pdu(header: Header, data: seq<Byte>)

  const ISO_DESCRIPTOR: nat := 16

  /** How much follows a header: the data of an OUT SUBMIT, then one 16-byte descriptor for each
      packet of an isochronous one; nothing otherwise. */
  function DataLength(h: Header): nat {
    if Command(h) != CMD_SUBMIT then 0
    else OutLength(h) + if Iso(h) then ISO_DESCRIPTOR * Packets(h) else 0
  }

  predicate WellFormed(pdus: seq<Pdu>) {
    forall p | p in pdus :: |p.data| == DataLength(p.header)
  }

  function Flat(pdus: seq<Pdu>): seq<Byte> {
    if pdus == [] then [] else pdus[0].header + pdus[0].data + Flat(pdus[1..])
  }

  /** Where the k-th PDU of a stream starts. */
  function Start(pdus: seq<Pdu>, k: nat): nat
    requires k <= |pdus|
  {
    if k == 0 then 0 else HEADER + |pdus[0].data| + Start(pdus[1..], k - 1)
  }

  lemma {:induction false} StartNext(pdus: seq<Pdu>, k: nat)
    requires k < |pdus|
    ensures Start(pdus, k + 1) == Start(pdus, k) + HEADER + |pdus[k].data|
  {
    if k > 0 { StartNext(pdus[1..], k - 1); }
  }

  /** The k-th PDU sits at its start. */
  lemma {:induction false} FlatAt(pdus: seq<Pdu>, k: nat)
    requires k < |pdus|
    ensures Start(pdus, k + 1) <= |Flat(pdus)|
    ensures Start(pdus, k) + HEADER <= Start(pdus, k + 1)
    ensures Flat(pdus)[Start(pdus, k)..Start(pdus, k) + HEADER] == pdus[k].header
    ensures Flat(pdus)[Start(pdus, k) + HEADER..Start(pdus, k + 1)] == pdus[k].data
  {
    var first, rest := pdus[0].header + pdus[0].data, Flat(pdus[1..]);
    assert Flat(pdus) == first + rest;
    if k == 0 {
      assert first[..HEADER] == pdus[0].header && first[HEADER..] == pdus[0].data;
      assert (first + rest)[..HEADER] == first[..HEADER];
      assert Start(pdus[1..], 0) == 0;
      assert (first + rest)[HEADER..|first|] == first[HEADER..];
    } else {
      FlatAt(pdus[1..], k - 1);
      var i, j := Start(pdus[1..], k - 1), Start(pdus[1..], k);
      Shifted(first, rest, i, i + HEADER);
      Shifted(first, rest, i + HEADER, j);
    }
  }

  lemma Shifted(a: seq<Byte>, b: seq<Byte>, i: nat, j: nat)
    requires i <= j <= |b|
    ensures (a + b)[|a| + i..|a| + j] == b[i..j]
  {}

  /** The headers after which the reader looks in the wrong place: isochronous ones, and a control
      transfer to endpoint 0 refused for its direction with data behind it. */
  predicate LosesStep(h: Header, c: Config) {
    && Command(h) == CMD_SUBMIT
    && (Iso(h) || (ClashesAtEp0(h) && Devid(h) == c.devid && 0 < OutLength(h) <= c.maxTransfer))
  }

  /** Of the PDUs the server goes on after, exactly those leave it out of step. */
  lemma SkipsItsData(h: Header, c: Config, o: Outcome)
    requires Allowed(h, c, o) && !o.TornDown? && !o.Lost?
    ensures Skipped(o) == DataLength(h) <==> !LosesStep(h, c)
    ensures o.Taken? ==> |o.out| + o.inCapacity == Length(h)
  {
    hide Word;
    if Command(h) == CMD_SUBMIT && Iso(h) { assert ISO_DESCRIPTOR * Packets(h) > 0; }
  }

  /** The input from start on is the PDUs, and then whatever else. */
  ghost predicate Carries(input: seq<Byte>, start: nat, pdus: seq<Pdu>) {
    && start <= |input| && WellFormed(pdus) && Flat(pdus) <= input[start..]
  }

  lemma CarriesAt(input: seq<Byte>, start: nat, pdus: seq<Pdu>, k: nat)
    requires Carries(input, start, pdus) && k < |pdus|
    ensures start + Start(pdus, k + 1) <= |input|
    ensures Start(pdus, k + 1) == Start(pdus, k) + HEADER + DataLength(pdus[k].header)
    ensures var at := start + Start(pdus, k);
      && input[at..at + HEADER] == pdus[k].header
      && input[at + HEADER..start + Start(pdus, k + 1)] == pdus[k].data
  {
    hide DataLength;
    FlatAt(pdus, k);
    StartNext(pdus, k);
    assert pdus[k] in pdus;
    var i, j, s := Start(pdus, k), Start(pdus, k + 1), input[start..];
    assert Flat(pdus)[i..i + HEADER] == s[i..i + HEADER] == input[start + i..start + i + HEADER];
    assert Flat(pdus)[i + HEADER..j] == s[i + HEADER..j] == input[start + i + HEADER..start + j];
  }

  /** The k-th header was read where the k-th PDU starts. */
  ghost predicate InStep(start: nat, pdus: seq<Pdu>, trace: seq<Event>, k: nat)
    requires k < |trace| && k <= |pdus|
  {
    trace[k].at == start + Start(pdus, k)
  }

  /** One PDU in step: it is the client's, its data reaches the work item byte for byte, and the
      next header is in step too exactly when this one does not lose the step. */
  lemma StepInStep(input: seq<Byte>, start: nat, c: Config, pdus: seq<Pdu>, trace: seq<Event>, k: nat)
    requires IsTrace(input, start, c, trace) && Carries(input, start, pdus)
    requires k < |trace| && k < |pdus| && InStep(start, pdus, trace, k)
    ensures trace[k].header == pdus[k].header
    ensures trace[k].outcome.Taken? ==> trace[k].outcome.out == pdus[k].data
    ensures k + 1 < |trace| ==> (InStep(start, pdus, trace, k + 1) <==> !LosesStep(pdus[k].header, c))
  {
    hide Allowed, LosesStep, DataLength;
    var e := trace[k];
    assert EventOk(input, start, c, trace, k);
    CarriesAt(input, start, pdus, k);
    if e.outcome.Taken? { TakenWhole(e.header, c, e.outcome); }
    if k + 1 < |trace| {
      assert EventOk(input, start, c, trace, k + 1);
      SkipsItsData(e.header, c, e.outcome);
    }
  }

  lemma TakenWhole(h: Header, c: Config, o: Outcome)
    requires Allowed(h, c, o) && o.Taken?
    ensures |o.out| == DataLength(h)
  {
    hide Word;
  }

  lemma {:induction false} InStepUpTo(
    input: seq<Byte>, start: nat, c: Config, pdus: seq<Pdu>, trace: seq<Event>, k: nat)
    requires IsTrace(input, start, c, trace) && Carries(input, start, pdus)
    requires k < |trace| && k <= |pdus|
    requires forall j | 0 <= j < k :: !LosesStep(pdus[j].header, c)
    ensures InStep(start, pdus, trace, k)
  {
    hide LosesStep, Flat;
    if k == 0 {
      assert EventOk(input, start, c, trace, 0);
    } else {
      InStepUpTo(input, start, c, pdus, trace, k - 1);
      StepInStep(input, start, c, pdus, trace, k - 1);
    }
  }

  /** Whatever the PDUs, the cuts in the stream and the failures of memory: every header is read
      where a PDU starts if and only if no PDU that the server went on after loses the step. */
  lemma StaysInStepExactly(input: seq<Byte>, start: nat, c: Config, pdus: seq<Pdu>, trace: seq<Event>)
    requires IsTrace(input, start, c, trace) && Carries(input, start, pdus)
    ensures
      (forall k | 0 <= k < |trace| && k <= |pdus| :: InStep(start, pdus, trace, k)) <==>
      (forall k | 0 <= k < |trace| - 1 && k < |pdus| :: !LosesStep(pdus[k].header, c))
  {
    hide LosesStep, IsTrace, Carries;
    if forall k | 0 <= k < |trace| - 1 && k < |pdus| :: !LosesStep(pdus[k].header, c) {
      forall k | 0 <= k < |trace| && k <= |pdus| ensures InStep(start, pdus, trace, k) {
        InStepUpTo(input, start, c, pdus, trace, k);
      }
    }
    if forall k | 0 <= k < |trace| && k <= |pdus| :: InStep(start, pdus, trace, k) {
      forall k | 0 <= k < |trace| - 1 && k < |pdus| ensures !LosesStep(pdus[k].header, c) {
        assert InStep(start, pdus, trace, k) && InStep(start, pdus, trace, k + 1);
        StepInStep(input, start, c, pdus, trace, k);
      }
    }
  }

  /** What reached the workers: the data of the PDUs, byte for byte and in order. */
  lemma DataReachesWorkers(input: seq<Byte>, start: nat, c: Config, pdus: seq<Pdu>, trace: seq<Event>, k: nat)
    requires IsTrace(input, start, c, trace) && Carries(input, start, pdus)
    requires k < |trace| && k < |pdus| && forall j | 0 <= j < k :: !LosesStep(pdus[j].header, c)
    ensures trace[k].header == pdus[k].header
    ensures trace[k].outcome.Taken? ==> trace[k].outcome.out == pdus[k].data
  {
    hide LosesStep, IsTrace, Carries;
    InStepUpTo(input, start, c, pdus, trace, k);
    StepInStep(input, start, c, pdus, trace, k);
  }

  /** A control transfer to endpoint 0 whose header says OUT and whose setup packet says IN. */
  lemma ClashLosesStep(c: Config) returns (h: Header, o: Outcome)
    requires 0 < c.maxTransfer && c.devid < 0x1_0000_0000
    ensures LosesStep(h, c) && Allowed(h, c, o) && o == Answered(-EINVAL, 0) && DataLength(h) == 1
  {
    hide Word32, Be32;
    Back32(0);
    Back32(1);
    Back32(c.devid);
    h := Be32(1) + Be32(1) + Be32(c.devid) + Be32(0) + Be32(0) + Be32(0) + Be32(1) + Be32(0) + Be32(0) + Be32(0)
      + [0x80, 0, 0, 0, 0, 0, 0, 0];
    assert h[0..4] == Be32(1) && h[8..12] == Be32(c.devid) && h[12..16] == Be32(0) && h[16..20] == Be32(0);
    assert h[24..28] == Be32(1) && h[32..36] == Be32(0);
    o := Answered(-EINVAL, 0);
  }
}
