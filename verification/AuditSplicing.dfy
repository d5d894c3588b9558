/**
  * How far tamper evidence reaches. The verifier keeps no link from one chain to the next, so a
  * checkpoint or a later record vouches for its own chain and for nothing before its genesis.
  */
module AuditSplicing {
  import opened Text
  import opened AuditRecord
  import opened AuditVerifier

  /** The line starts a new chain. */
  predicate StartsRun(line: Line) { line.RecordLine? && IsGenesis(line.record) }

  /** An empty or an accepted file. */
  predicate Readable(h: HashFn, lines: seq<Line>) { lines == [] || Verdict(h, lines).Some? }

  lemma ReadableIsReplayed(h: HashFn, lines: seq<Line>)
    ensures Readable(h, lines) <==> ReplayAll(h, EMPTY, lines).Some?
  {
    hide RecordOk, PayloadOk, Extended, Checked;
  }

  // ----- what the verdict on the following lines depends on -----

  /** Both wait for the same next record. */
  predicate Alike(s: Replay, t: Replay) {
    && s.current.Some? == t.current.Some?
    && (s.current.Some? ==>
          var c, d := s.current.value, t.current.value;
          c.chainId == d.chainId && c.lastSequence == d.lastSequence && c.headHash == d.headHash)
  }

  lemma LineAlike(h: HashFn, s: Replay, t: Replay, line: Line)
    requires Alike(s, t)
    ensures var s', t' := ReplayLine(h, s, line), ReplayLine(h, t, line);
      s'.Some? == t'.Some? && (s'.Some? ==> Alike(s'.value, t'.value))
  {
    hide RecordOk, PayloadOk, IsGenesis, GenesisOk;
  }

  lemma {:induction false} LinesAlike(h: HashFn, s: Replay, t: Replay, lines: seq<Line>)
    requires Alike(s, t)
    ensures var s', t' := ReplayAll(h, s, lines), ReplayAll(h, t, lines);
      s'.Some? == t'.Some? && (s'.Some? ==> Alike(s'.value, t'.value))
  {
    hide ReplayLine, Alike;
    if lines != [] {
      var front := lines[..|lines| - 1];
      LinesAlike(h, s, t, front);
      if ReplayAll(h, s, front).Some? {
        LineAlike(h, ReplayAll(h, s, front).value, ReplayAll(h, t, front).value, lines[|lines| - 1]);
      }
    }
  }

  lemma FirstLine(h: HashFn, s: Replay, lines: seq<Line>)
    requires lines != []
    ensures var first := ReplayLine(h, s, lines[0]);
      ReplayAll(h, s, lines) == if first.None? then None else ReplayAll(h, first.value, lines[1..])
  {
    hide ReplayLine;
    assert [lines[0]] + lines[1..] == lines;
    ReplayAppend(h, s, [lines[0]], lines[1..]);
    assert [lines[0]][..0] == [];
    assert ReplayAll(h, s, [lines[0]]) == ReplayLine(h, s, lines[0]);
  }

  /** From a genesis record on, nothing before it matters. */
  lemma RunStartsAnew(h: HashFn, s: Replay, t: Replay, lines: seq<Line>)
    requires lines != [] && StartsRun(lines[0])
    ensures ReplayAll(h, s, lines).Some? == ReplayAll(h, t, lines).Some?
  {
    hide RecordOk, IsGenesis, GenesisOk, ReplayAll;
    FirstLine(h, s, lines);
    FirstLine(h, t, lines);
    var s', t' := ReplayLine(h, s, lines[0]), ReplayLine(h, t, lines[0]);
    if s'.Some? { LinesAlike(h, s'.value, t'.value, lines[1..]); }
  }

  /** The state after accepted lines and the chain they leave open. */
  lemma OpenChainState(h: HashFn, lines: seq<Line>)
    requires ReplayAll(h, EMPTY, lines).Some?
    ensures var s, rs := ReplayAll(h, EMPTY, lines).value, OpenChain(lines);
      if s.current.Some? then Summarises(h, rs, s.current.value) else rs == []
  {
    hide Summarises, ReplayAll, ChainsOf;
    AcceptedChains(h, lines);
    var s := ReplayAll(h, EMPTY, lines).value;
    if s.current.Some? {
      var cs := Finished(s);
      assert Summarises(h, ChainsOf(lines)[|cs| - 1], cs[|cs| - 1]);
    }
  }

  lemma SameOpenChainAlike(h: HashFn, x: seq<Line>, y: seq<Line>)
    requires ReplayAll(h, EMPTY, x).Some? && ReplayAll(h, EMPTY, y).Some? && OpenChain(x) == OpenChain(y)
    ensures Alike(ReplayAll(h, EMPTY, x).value, ReplayAll(h, EMPTY, y).value)
  {
    hide ReplayAll, OpenChain, RecordOk;
    OpenChainState(h, x);
    OpenChainState(h, y);
  }

  /** A line that belongs to an open chain names its head. */
  lemma LinePinsHead(h: HashFn, s: Replay, t: Replay, line: Line)
    requires ReplayLine(h, s, line).Some? && ReplayLine(h, t, line).Some? && !StartsRun(line)
    ensures s.current.Some? && t.current.Some? && s.current.value.headHash == t.current.value.headHash
  {
    hide RecordOk, PayloadOk, GenesisOk;
  }

  lemma NextLinePinsOpenChain(h: HashFn, x: seq<Line>, y: seq<Line>, line: Line)
    requires ReplayAll(h, EMPTY, x).Some? && ReplayAll(h, EMPTY, y).Some? && !StartsRun(line)
    requires ReplayLine(h, ReplayAll(h, EMPTY, x).value, line).Some? && ReplayLine(h, ReplayAll(h, EMPTY, y).value, line).Some?
    ensures OpenChain(x) == OpenChain(y) || Collide(h, OpenChain(x), OpenChain(y))
  {
    hide ReplayAll, ReplayLine, OpenChain, RecordOk, Collide, StartsRun;
    LinePinsHead(h, ReplayAll(h, EMPTY, x).value, ReplayAll(h, EMPTY, y).value, line);
    OpenChainState(h, x);
    OpenChainState(h, y);
    SameHeadSameChain(h, OpenChain(x), OpenChain(y));
  }

  // ----- exchanging the first part of a file -----

  /**
    * Exactly when the first part of an accepted file can be exchanged for y without being noticed:
    * when y is readable itself and the rest is empty, starts a run of its own, or continues the
    * very chain that y leaves open.
    */
  lemma ExchangeUnseenIff(h: HashFn, x: seq<Line>, y: seq<Line>, b: seq<Line>)
    requires Verdict(h, x + b).Some? && y + b != [] && !Collide(h, OpenChain(x), OpenChain(y))
    ensures Verdict(h, y + b).Some? <==> Readable(h, y) && (b == [] || StartsRun(b[0]) || OpenChain(y) == OpenChain(x))
  {
    hide Verdict, ReplayAll, ReplayLine, OpenChain, Collide, StartsRun;
    ReadableIsReplayed(h, x + b);
    ReadableIsReplayed(h, y + b);
    ReadableIsReplayed(h, y);
    ReplayAppend(h, EMPTY, x, b);
    ReplayAppend(h, EMPTY, y, b);
    if ReplayAll(h, EMPTY, y).Some? {
      var s, t := ReplayAll(h, EMPTY, x).value, ReplayAll(h, EMPTY, y).value;
      if b == [] {
        assert y + b == y;
      } else if StartsRun(b[0]) {
        RunStartsAnew(h, s, t, b);
      } else if OpenChain(y) == OpenChain(x) {
        SameOpenChainAlike(h, x, y);
        LinesAlike(h, s, t, b);
      } else if ReplayAll(h, t, b).Some? {
        FirstLine(h, s, b);
        FirstLine(h, t, b);
        NextLinePinsOpenChain(h, x, y, b[0]);
      }
    }
  }

  /** Exactly which lines of an accepted file can be left out, or put back in, without being noticed. */
  lemma CutUnseenIff(h: HashFn, a: seq<Line>, d: seq<Line>, b: seq<Line>)
    requires Verdict(h, a + d + b).Some? && a + b != [] && !Collide(h, OpenChain(a + d), OpenChain(a))
    ensures Verdict(h, a + b).Some? <==> b == [] || StartsRun(b[0]) || OpenChain(a) == OpenChain(a + d)
  {
    hide Verdict, ReplayAll, OpenChain, Collide, StartsRun;
    ExchangeUnseenIff(h, a + d, a, b);
    assert a + d + b == a + (d + b);
    ReadableIsReplayed(h, a + d + b);
    ReadableIsReplayed(h, a);
    ReplayAppend(h, EMPTY, a, d + b);
  }

  // ----- whole files -----

  function Behind(done: seq<Chain>, s: Replay): Replay { Replay(done + s.done, s.current) }

  lemma LineBehind(h: HashFn, done: seq<Chain>, s: Replay, line: Line)
    ensures ReplayLine(h, Behind(done, s), line) ==
      match ReplayLine(h, s, line) case None => None case Some(r) => Some(Behind(done, r))
  {
    hide RecordOk, PayloadOk, IsGenesis, GenesisOk, Extended, Checked;
    assert Finished(Behind(done, s)) == done + Finished(s);
  }

  lemma {:induction false} LinesBehind(h: HashFn, done: seq<Chain>, s: Replay, lines: seq<Line>)
    ensures ReplayAll(h, Behind(done, s), lines) ==
      match ReplayAll(h, s, lines) case None => None case Some(r) => Some(Behind(done, r))
  {
    hide ReplayLine, Behind;
    if lines != [] {
      var front := lines[..|lines| - 1];
      LinesBehind(h, done, s, front);
      if ReplayAll(h, s, front).Some? { LineBehind(h, done, ReplayAll(h, s, front).value, lines[|lines| - 1]); }
    }
  }

  /**
    * The verifier cannot tell which runs belong together: accepted files may be joined in any
    * order, and a checkpoint in one of them says nothing about the presence of the others.
    */
  lemma JoinedFilesVerify(h: HashFn, f: seq<Line>, g: seq<Line>)
    requires Verdict(h, f).Some? && Verdict(h, g).Some?
    ensures Verdict(h, f + g) == Some(Verdict(h, f).value + Verdict(h, g).value)
  {
    hide RecordOk, GenesisOk, PayloadOk, IsGenesis, ReplayAll, Extended, Checked;
    var s := ReplayAll(h, EMPTY, f).value;
    ReplayAppend(h, EMPTY, f, g);
    assert g != [] by { NothingReplayed(h); }
    FirstLine(h, EMPTY, g);
    FirstLine(h, s, g);
    var first := ReplayLine(h, EMPTY, g[0]).value;
    assert Finished(s) + [] == Finished(s);
    assert ReplayLine(h, s, g[0]) == Some(Behind(Finished(s), first));
    LinesBehind(h, Finished(s), first, g[1..]);
    var r := ReplayAll(h, EMPTY, g).value;
    assert Finished(Behind(Finished(s), r)) == Finished(s) + Finished(r);
  }

  lemma NothingReplayed(h: HashFn)
    ensures ReplayAll(h, EMPTY, []) == Some(EMPTY)
  {
  }
}
