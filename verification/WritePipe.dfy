/** The pending writes of a connection (connection.c, plain branch) as a stream of bytes. */
module WritePipe {
  import opened Wrappers
  import opened Sequences

  const NWRITERECS := 16

  /** WriteRecord: `buf` holds the wrbuflen bytes, `pos` is wrbufpos. */
  datatype Record = Record(buf: string, id: Option<nat>, pos: nat)

  /** What was handed in; `id` is None for a null pointer. */
  datatype Request = Request(buf: string, id: Option<nat>)

  /** The pending records and three histories: the accepted requests, the bytes written, the ids raised by dataSent. */
  datatype Pipe = Pipe(recs: seq<Record>, accepted: seq<Request>, wire: string, raised: seq<nat>)

  const EMPTY := Pipe([], [], [], [])

  function OneId(id: Option<nat>): seq<nat> { if id.Some? then [id.value] else [] }

  function Bytes(s: seq<Request>): string { if s == [] then [] else s[0].buf + Bytes(s[1..]) }

  function Wanted(s: seq<Request>): seq<nat> { if s == [] then [] else OneId(s[0].id) + Wanted(s[1..]) }

  function Left(r: Record): string { if r.pos <= |r.buf| then r.buf[r.pos..] else [] }

  function Unsent(s: seq<Record>): string { if s == [] then [] else Left(s[0]) + Unsent(s[1..]) }

  function Ids(s: seq<Record>): seq<nat> { if s == [] then [] else OneId(s[0].id) + Ids(s[1..]) }

  /** Nothing is lost, repeated or out of order: the bytes written and those still pending are the accepted buffers, and
      the ids raised and those still pending are the accepted ids. */
  ghost predicate Ok(p: Pipe) {
    && |p.recs| <= NWRITERECS && (forall k | 0 <= k < |p.recs| :: p.recs[k].pos <= |p.recs[k].buf|)
    && p.wire + Unsent(p.recs) == Bytes(p.accepted)
    && p.raised + Ids(p.recs) == Wanted(p.accepted)
  }

  /** Connection_write (640-652); refused exactly if all records are in use. */
  function Write(p: Pipe, r: Request): Pipe {
    if |p.recs| >= NWRITERECS then p
    else p.(recs := p.recs + [Record(r.buf, r.id, 0)], accepted := p.accepted + [r])
  }

  /** The result of write(2). */
  datatype Outcome = Wrote(n: nat) | WouldBlock | Failed

  ghost predicate Possible(p: Pipe, o: Outcome) {
    p.recs != [] && (o.Wrote? ==> o.n <= |Left(p.recs[0])|)
  }

  /** dowrite (202-283). */
  function DoWrite(p: Pipe, o: Outcome): Pipe
    requires p.recs != []
  {
    var rec := p.recs[0];
    if !o.Wrote? then p
    else if o.n < |Left(rec)| then p.(recs := [rec.(pos := rec.pos + o.n)] + p.recs[1..], wire := p.wire + Left(rec)[..o.n])
    else p.(recs := p.recs[1..], wire := p.wire + Left(rec), raised := p.raised + OneId(rec.id))
  }

  // ---------- lemmas on the sums ----------

  lemma BytesCons(r: Request, s: seq<Request>)
    ensures Bytes([r] + s) == r.buf + Bytes(s) && Wanted([r] + s) == OneId(r.id) + Wanted(s)
  {
    assert ([r] + s)[1..] == s;
  }

  lemma {:induction false} BytesSnoc(s: seq<Request>, r: Request)
    ensures Bytes(s + [r]) == Bytes(s) + r.buf && Wanted(s + [r]) == Wanted(s) + OneId(r.id)
  {
    if s == [] {
      BytesCons(r, []);
      assert s + [r] == [r] + [];
    } else {
      hide *;
      BytesSnoc(s[1..], r);
      BytesCons(s[0], s[1..] + [r]);
      BytesCons(s[0], s[1..]);
      assert s == [s[0]] + s[1..] && s + [r] == [s[0]] + (s[1..] + [r]);
      Reassociate(s[0].buf, Bytes(s[1..]), r.buf);
      Reassociate(OneId(s[0].id), Wanted(s[1..]), OneId(r.id));
    }
  }

  lemma UnsentOne(r: Record)
    ensures Unsent([r]) == Left(r) && Ids([r]) == OneId(r.id)
  {
    UnsentCons(r, []);
    assert [r] == [r] + [];
  }

  lemma {:induction false} UnsentSnoc(s: seq<Record>, r: Record)
    ensures Unsent(s + [r]) == Unsent(s) + Left(r) && Ids(s + [r]) == Ids(s) + OneId(r.id)
  {
    hide Left, OneId;
    if s == [] {
      UnsentOne(r);
      assert s + [r] == [r];
    } else {
      hide *;
      UnsentSnoc(s[1..], r);
      UnsentCons(s[0], s[1..] + [r]);
      UnsentCons(s[0], s[1..]);
      assert s == [s[0]] + s[1..] && s + [r] == [s[0]] + (s[1..] + [r]);
      Reassociate(Left(s[0]), Unsent(s[1..]), Left(r));
      Reassociate(OneId(s[0].id), Ids(s[1..]), OneId(r.id));
    }
  }

  lemma UnsentCons(r: Record, s: seq<Record>)
    ensures Unsent([r] + s) == Left(r) + Unsent(s) && Ids([r] + s) == OneId(r.id) + Ids(s)
  {
    assert ([r] + s)[1..] == s;
  }

  // ---------- every step keeps the stream ----------

  lemma EmptyOk()
    ensures Ok(EMPTY)
  {}

  /** A buffer and its id are accepted behind all others, or refused if all records are in use. */
  lemma WriteOk(p: Pipe, r: Request)
    requires Ok(p)
    ensures var q := Write(p, r);
            && Ok(q) && q.wire == p.wire && q.raised == p.raised
            && if |p.recs| == 16 then q == p
               else Unsent(q.recs) == Unsent(p.recs) + r.buf && Ids(q.recs) == Ids(p.recs) + OneId(r.id)
                    && q.accepted == p.accepted + [r]
  {
    if |p.recs| < NWRITERECS {
      var rec := Record(r.buf, r.id, 0);
      BytesSnoc(p.accepted, r);
      UnsentSnoc(p.recs, rec);
      assert Left(rec) == r.buf;
      hide Bytes, Wanted, Unsent, Ids, OneId, Left;
      Reassociate(p.wire, Unsent(p.recs), r.buf);
      Reassociate(p.raised, Ids(p.recs), OneId(r.id));
    }
  }

  /** The two ways of cutting a record's bytes from the front of the pending ones. */
  lemma PartSent(wire: string, rec: Record, n: nat, rest: string)
    requires n <= |Left(rec)| && rec.pos <= |rec.buf|
    ensures wire + Left(rec)[..n] + (Left(rec.(pos := rec.pos + n)) + rest) == wire + (Left(rec) + rest)
  {
    var a, b := Left(rec)[..n], Left(rec.(pos := rec.pos + n));
    assert Left(rec) == a + b;
    hide Left;
    Reassociate(a, b, rest);
    Reassociate(wire, a, b + rest);
  }

  lemma PartialOk(p: Pipe, rec: Record, rest: seq<Record>, n: nat)
    requires Ok(p) && p.recs == [rec] + rest && n <= |Left(rec)|
    ensures Ok(p.(recs := [rec.(pos := rec.pos + n)] + rest, wire := p.wire + Left(rec)[..n]))
  {
    var after := rec.(pos := rec.pos + n);
    assert p.recs[0] == rec && forall k | 0 <= k < |rest| :: rest[k] == p.recs[k + 1];
    assert after.pos <= |rec.buf|;
    UnsentCons(rec, rest);
    UnsentCons(after, rest);
    PartSent(p.wire, rec, n, Unsent(rest));
    hide Unsent, Ids, OneId, Wanted, Bytes, Left;
  }

  lemma CompleteOk(p: Pipe, rec: Record, rest: seq<Record>)
    requires Ok(p) && p.recs == [rec] + rest
    ensures Ok(p.(recs := rest, wire := p.wire + Left(rec), raised := p.raised + OneId(rec.id)))
  {
    UnsentCons(rec, rest);
    hide Unsent, Ids, OneId, Wanted, Bytes, Left;
    assert forall k | 0 <= k < |rest| :: rest[k] == p.recs[k + 1];
    Reassociate(p.wire, Left(rec), Unsent(rest));
    Reassociate(p.raised, OneId(rec.id), Ids(rest));
  }

  lemma DoWriteOk(p: Pipe, o: Outcome)
    requires Ok(p) && Possible(p, o)
    ensures Ok(DoWrite(p, o))
  {
    if o.Wrote? {
      hide Ok, Left;
      var rec, rest := p.recs[0], p.recs[1..];
      assert p.recs == [rec] + rest;
      if o.n < |Left(rec)| { PartialOk(p, rec, rest, o.n); } else { CompleteOk(p, rec, rest); }
    }
  }

  /** A write that takes `n` bytes sends the first `n` that are pending, and just those are no longer pending. Its id is
      raised with a record's last byte. A write that takes none changes nothing. */
  lemma DoWriteTakes(p: Pipe, o: Outcome)
    requires Ok(p) && Possible(p, o)
    ensures o.Wrote? && o.n < |Left(p.recs[0])| ==> TookPart(p, DoWrite(p, o), Left(p.recs[0])[..o.n])
    ensures o.Wrote? && o.n == |Left(p.recs[0])| ==> TookAll(p, DoWrite(p, o), Left(p.recs[0])[..o.n])
    ensures !o.Wrote? ==> DoWrite(p, o) == p
  {
    if o.Wrote? {
      assert p.recs[0].pos <= |p.recs[0].buf|;
      hide Ok;
      if o.n < |Left(p.recs[0])| { PartIsTaken(p, o.n); } else { AllIsTaken(p); }
    }
  }

  predicate TookPart(p: Pipe, q: Pipe, sent: string) {
    && q.wire == p.wire + sent && Unsent(p.recs) == sent + Unsent(q.recs)
    && |q.recs| == |p.recs| > 0 && q.recs[1..] == p.recs[1..] && q.raised == p.raised && q.accepted == p.accepted
  }

  predicate TookAll(p: Pipe, q: Pipe, sent: string)
    requires p.recs != []
  {
    && q.wire == p.wire + sent && Unsent(p.recs) == sent + Unsent(q.recs)
    && q.recs == p.recs[1..] && q.raised == p.raised + OneId(p.recs[0].id) && q.accepted == p.accepted
  }

  lemma PartIsTaken(p: Pipe, n: nat)
    requires p.recs != [] && p.recs[0].pos <= |p.recs[0].buf| && n < |Left(p.recs[0])|
    ensures TookPart(p, DoWrite(p, Wrote(n)), Left(p.recs[0])[..n])
  {
    var rec, rest := p.recs[0], p.recs[1..];
    var after := rec.(pos := rec.pos + n);
    assert DoWrite(p, Wrote(n)) == p.(recs := [after] + rest, wire := p.wire + Left(rec)[..n]);
    hide *;
    FirstAndRest(p.recs);
    PartTaken(rec, rest, n);
    PartFits(p, after, Left(rec)[..n]);
  }

  lemma PartFits(p: Pipe, after: Record, sent: string)
    requires p.recs != [] && Unsent(p.recs) == sent + Unsent([after] + p.recs[1..])
    ensures TookPart(p, p.(recs := [after] + p.recs[1..], wire := p.wire + sent), sent)
  {
    hide Unsent;
    TailOfCons(after, p.recs[1..]);
  }

  lemma AllIsTaken(p: Pipe)
    requires p.recs != []
    ensures TookAll(p, DoWrite(p, Wrote(|Left(p.recs[0])|)), Left(p.recs[0])[..|Left(p.recs[0])|])
  {
    hide Left, Unsent;
    FirstAndRest(p.recs);
    UnsentCons(p.recs[0], p.recs[1..]);
    assert Left(p.recs[0])[..|Left(p.recs[0])|] == Left(p.recs[0]);
  }

  lemma PartTaken(rec: Record, rest: seq<Record>, n: nat)
    requires rec.pos <= |rec.buf| && n <= |Left(rec)|
    ensures Unsent([rec] + rest) == Left(rec)[..n] + Unsent([rec.(pos := rec.pos + n)] + rest)
  {
    var after := rec.(pos := rec.pos + n);
    assert Left(rec) == Left(rec)[..n] + Left(after);
    hide *;
    UnsentCons(rec, rest);
    UnsentCons(after, rest);
    Reassociate(Left(rec)[..n], Left(after), Unsent(rest));
  }

  /** A step of a connection's life: a call of Connection_write, from wherever, or the descriptor becoming writable.
      In dowrite the dataSent event is raised last (265), so what its handlers write are just the next steps. */
  datatype Step = Accept(r: Request) | Ready(o: Outcome)

  ghost predicate Runs(steps: seq<Step>, p: Pipe)
    decreases |steps|
  {
    steps != [] ==> (steps[0].Ready? ==> Possible(p, steps[0].o)) && Runs(steps[1..], Apply(p, steps[0]))
  }

  function Apply(p: Pipe, s: Step): Pipe {
    match s
    case Accept(r) => Write(p, r)
    case Ready(o) => if p.recs == [] then p else DoWrite(p, o)
  }

  function After(p: Pipe, steps: seq<Step>): Pipe
    decreases |steps|
  {
    if steps == [] then p else After(Apply(p, steps[0]), steps[1..])
  }

  /** Over any run of writes, partial writes, refusals and errors. */
  lemma {:induction false} RunOk(p: Pipe, steps: seq<Step>)
    requires Ok(p) && Runs(steps, p)
    ensures Ok(After(p, steps))
    decreases |steps|
  {
    if steps != [] {
      hide Ok;
      if steps[0].Accept? { WriteOk(p, steps[0].r); } else { DoWriteOk(p, steps[0].o); }
      RunOk(Apply(p, steps[0]), steps[1..]);
    }
  }

  /** The bytes that the writes of a run take, one write after the other. */
  function Taken(p: Pipe, steps: seq<Step>): nat
    decreases |steps|
  {
    if steps == [] then 0
    else
      var n := if steps[0].Ready? && steps[0].o.Wrote? && p.recs != [] then steps[0].o.n else 0;
      n + Taken(Apply(p, steps[0]), steps[1..])
  }

  /** Over a run just as many bytes go over the wire as the writes take. */
  lemma {:induction false} WireGrows(p: Pipe, steps: seq<Step>)
    requires Ok(p) && Runs(steps, p)
    ensures p.wire <= After(p, steps).wire && |After(p, steps).wire| == |p.wire| + Taken(p, steps)
    decreases |steps|
  {
    if steps != [] {
      if steps[0].Accept? { WriteOk(p, steps[0].r); } else {
        DoWriteOk(p, steps[0].o);
        DoWriteTakes(p, steps[0].o);
      }
      hide Ok, DoWrite, Write;
      WireGrows(Apply(p, steps[0]), steps[1..]);
    }
  }

  // ---------- the flush in Connection_destroy ----------

  /** Of what is written at once, as much is accepted as there are free records, first come first served. */
  lemma {:induction false} WriteAllIs(p: Pipe, s: seq<Request>)
    requires |p.recs| <= NWRITERECS
    ensures var room := NWRITERECS - |p.recs|;
            WriteAll(p, s).accepted == p.accepted + if |s| <= room then s else s[..room]
    decreases |s|
  {
    if s != [] {
      var room := NWRITERECS - |p.recs|;
      WriteAllIs(Write(p, s[0]), s[1..]);
      if room > 0 {
        assert s == [s[0]] + s[1..];
        if |s| > room { assert s[..room] == [s[0]] + s[1..][..room - 1]; }
      }
    }
  }

  function WriteAll(p: Pipe, s: seq<Request>): Pipe
    decreases |s|
  {
    if s == [] then p else WriteAll(Write(p, s[0]), s[1..])
  }

  /** What the handlers of the next dataSent event write; they stay silent when the script has run out. */
  function Now(script: seq<seq<Request>>): seq<Request> { if script == [] then [] else script[0] }

  function Later(script: seq<seq<Request>>): seq<seq<Request>> { if script == [] then [] else script[1..] }

  /** One turn of the loop (718-726): the handlers run while the record still counts. */
  function FlushOne(p: Pipe, script: seq<seq<Request>>): (Pipe, seq<seq<Request>>)
    requires p.recs != []
  {
    var rec := p.recs[0];
    var raised := if rec.id.Some? then WriteAll(p.(raised := p.raised + OneId(rec.id)), Now(script)) else p;
    (raised.(recs := if raised.recs == [] then [] else raised.recs[1..]), if rec.id.Some? then Later(script) else script)
  }

  function Total(script: seq<seq<Request>>): nat { if script == [] then 0 else |script[0]| + Total(script[1..]) }

  lemma {:induction false} WriteAllGrows(p: Pipe, s: seq<Request>)
    ensures |p.recs| <= |WriteAll(p, s).recs| <= |p.recs| + |s|
    ensures p.recs <= WriteAll(p, s).recs && WriteAll(p, s).raised == p.raised && WriteAll(p, s).wire == p.wire
    decreases |s|
  {
    if s != [] { WriteAllGrows(Write(p, s[0]), s[1..]); }
  }

  function Flush(p: Pipe, script: seq<seq<Request>>): Pipe
    decreases |p.recs| + Total(script)
  {
    if p.recs == [] then p
    else
      var (q, more) := FlushOne(p, script);
      WriteAllGrows(p.(raised := p.raised + OneId(p.recs[0].id)), Now(script));
      Flush(q, more)
  }

  /** The ids alone: those raised and those pending are the accepted ones. */
  ghost predicate IdsOk(p: Pipe) { |p.recs| <= NWRITERECS && p.raised + Ids(p.recs) == Wanted(p.accepted) }

  /** Between raising the first record's id and dropping it. */
  ghost predicate IdsOkButFirst(p: Pipe) {
    0 < |p.recs| <= NWRITERECS && p.raised + Ids(p.recs[1..]) == Wanted(p.accepted)
  }

  lemma WriteKeepsIds(p: Pipe, r: Request)
    requires IdsOkButFirst(p)
    ensures IdsOkButFirst(Write(p, r))
  {
    if |p.recs| < NWRITERECS {
      var rec := Record(r.buf, r.id, 0);
      BytesSnoc(p.accepted, r);
      UnsentSnoc(p.recs[1..], rec);
      assert (p.recs + [rec])[1..] == p.recs[1..] + [rec];
      Reassociate(p.raised, Ids(p.recs[1..]), OneId(r.id));
    }
  }

  lemma {:induction false} WriteAllKeepsIds(p: Pipe, s: seq<Request>)
    requires IdsOkButFirst(p)
    ensures IdsOkButFirst(WriteAll(p, s))
    decreases |s|
  {
    if s != [] {
      WriteKeepsIds(p, s[0]);
      WriteAllKeepsIds(Write(p, s[0]), s[1..]);
    }
  }

  /** Destroying a connection raises every id that is still due, in order, once - those of the records its handlers add
      in the meantime included - and writes nothing more. */
  lemma {:induction false} FlushRaisesAll(p: Pipe, script: seq<seq<Request>>)
    requires IdsOk(p)
    ensures Flush(p, script).recs == [] && Flush(p, script).raised == Wanted(Flush(p, script).accepted)
    ensures Flush(p, script).wire == p.wire
    decreases |p.recs| + Total(script)
  {
    if p.recs != [] {
      var rec, rest := p.recs[0], p.recs[1..];
      var (q, more) := FlushOne(p, script);
      var p1 := p.(raised := p.raised + OneId(rec.id));
      Reassociate(p.raised, OneId(rec.id), Ids(rest));
      assert p.raised + OneId(rec.id) == p1.raised;
      WriteAllGrows(p1, Now(script));
      WriteAllKeepsIds(p1, Now(script));
      assert rec.id.None? ==> p1 == p by { assert p.raised + [] == p.raised; }
      FlushRaisesAll(q, more);
    } else {
      assert p.raised + [] == p.raised;
    }
  }

  /** From creation to destruction: each non-null id accepted is raised exactly once, in order, and what went over the
      wire is a prefix of the accepted bytes. */
  lemma LifeOfAConnection(steps: seq<Step>, script: seq<seq<Request>>)
    requires Runs(steps, EMPTY)
    ensures var p := Flush(After(EMPTY, steps), script);
            p.raised == Wanted(p.accepted) && p.wire <= Bytes(After(EMPTY, steps).accepted)
  {
    RunOk(EMPTY, steps);
    FlushRaisesAll(After(EMPTY, steps), script);
  }

  // ---------- when the flush accepts nothing ----------

  /** What the handlers write when the m-th id of the flush is raised. */
  function Said(script: seq<seq<Request>>, m: nat): seq<Request> { if m < |script| then script[m] else [] }

  /** For every pending record with an id, the handlers of its event stay silent, or it is the first of a full ring. */
  predicate Silent(recs: seq<Record>, script: seq<seq<Request>>) {
    forall k | 0 <= k < |recs| && recs[k].id.Some? ::
      Said(script, |Ids(recs[..k])|) == [] || (k == 0 && |recs| == NWRITERECS)
  }

  /** Silence, record by record. */
  predicate SilentFrom(recs: seq<Record>, script: seq<seq<Request>>, full: bool)
    decreases |recs|
  {
    recs != [] ==>
      if recs[0].id.None? then SilentFrom(recs[1..], script, false)
      else (full || Now(script) == []) && SilentFrom(recs[1..], Later(script), false)
  }

  lemma SilentStep(recs: seq<Record>, script: seq<seq<Request>>, k: nat)
    requires recs != [] && k < |recs| - 1
    ensures var more := if recs[0].id.Some? then Later(script) else script;
            Said(more, |Ids(recs[1..][..k])|) == Said(script, |Ids(recs[..k + 1])|)
  {
    assert recs[..k + 1] == [recs[0]] + recs[1..][..k];
    UnsentCons(recs[0], recs[1..][..k]);
  }

  lemma {:induction false} SilentAgree(recs: seq<Record>, script: seq<seq<Request>>, full: bool)
    ensures SilentFrom(recs, script, full) <==>
      forall k | 0 <= k < |recs| && recs[k].id.Some? :: Said(script, |Ids(recs[..k])|) == [] || (k == 0 && full)
    decreases |recs|
  {
    if recs != [] {
      var rest, more := recs[1..], if recs[0].id.Some? then Later(script) else script;
      SilentAgree(rest, more, false);
      assert Ids(recs[..0]) == [] && Said(script, 0) == Now(script);
      forall k | 0 <= k < |rest| ensures Said(more, |Ids(rest[..k])|) == Said(script, |Ids(recs[..k + 1])|) {
        SilentStep(recs, script, k);
      }
      assert forall k | 0 < k < |recs| :: recs[k] == rest[k - 1];
      hide Ids, Said, Later, Now;
      if SilentFrom(rest, more, false) {
        forall k | 0 < k < |recs| && recs[k].id.Some? ensures Said(script, |Ids(recs[..k])|) == [] {
          assert Said(more, |Ids(rest[..k - 1])|) == [] && k - 1 + 1 == k;
        }
      } else {
        var k :| 0 <= k < |rest| && rest[k].id.Some? && Said(more, |Ids(rest[..k])|) != [];
        assert recs[k + 1].id.Some? && Said(script, |Ids(recs[..k + 1])|) != [];
      }
    }
  }

  /** Either nothing is accepted and nothing changes, or the first request of all is. */
  lemma {:induction false} WriteAllAccepts(p: Pipe, s: seq<Request>)
    ensures |WriteAll(p, s).accepted| >= |p.accepted|
    ensures |p.recs| >= NWRITERECS || s == [] ==> WriteAll(p, s) == p
    ensures |p.recs| < NWRITERECS && s != [] ==> |WriteAll(p, s).accepted| > |p.accepted|
    decreases |s|
  {
    if s != [] { WriteAllAccepts(Write(p, s[0]), s[1..]); }
  }

  lemma {:induction false} FlushAcceptsFrom(p: Pipe, script: seq<seq<Request>>)
    requires |p.recs| <= NWRITERECS
    ensures |Flush(p, script).accepted| >= |p.accepted|
    ensures |Flush(p, script).accepted| == |p.accepted| <==> SilentFrom(p.recs, script, |p.recs| == NWRITERECS)
    decreases |p.recs| + Total(script)
  {
    if p.recs != [] {
      var rec := p.recs[0];
      var (q, more) := FlushOne(p, script);
      var p1 := p.(raised := p.raised + OneId(rec.id));
      WriteAllGrows(p1, Now(script));
      WriteAllAccepts(p1, Now(script));
      WriteAllBounded(p1, Now(script));
      FlushAcceptsFrom(q, more);
    }
  }

  lemma {:induction false} WriteAllBounded(p: Pipe, s: seq<Request>)
    requires |p.recs| <= NWRITERECS
    ensures |WriteAll(p, s).recs| <= NWRITERECS
    decreases |s|
  {
    if s != [] { WriteAllBounded(Write(p, s[0]), s[1..]); }
  }

  /** The flush accepts no request exactly if the handlers are silent at every id that is pending when it begins,
      except perhaps at the first one of a full ring, where they are refused. */
  lemma FlushAccepts(p: Pipe, script: seq<seq<Request>>)
    requires |p.recs| <= NWRITERECS
    ensures |Flush(p, script).accepted| >= |p.accepted|
    ensures |Flush(p, script).accepted| == |p.accepted| <==> Silent(p.recs, script)
  {
    FlushAcceptsFrom(p, script);
    SilentAgree(p.recs, script, |p.recs| == NWRITERECS);
  }
}
