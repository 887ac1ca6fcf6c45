/** How to split a transfer: every split makes the same accesses, and one block is cheapest from two words on. */
module Costs {
  import opened Words
  import opened Device
  import opened DmaRuns
  import opened Transports

  /** A part of a transfer: one word as a single access, or some words as a block. */
  datatype Piece = Single | Block(words: nat)

  function PieceWords(p: Piece): nat {
    match p case Single => 1 case Block(n) => n
  }

  function SplitWords(ps: seq<Piece>): nat {
    if ps == [] then 0 else SplitWords(ps[..|ps| - 1]) + PieceWords(ps[|ps| - 1])
  }

  /** Which way a transfer goes; a write carries the words of the whole transfer. */
  datatype Transfer = Reading | Writing(words: seq<Word>)

  predicate Holds(t: Transfer, n: nat) {
    t.Writing? ==> n <= |t.words|
  }

  /** Word i of the transfer on its own, or the block of words that starts there. */
  function PieceOp(t: Transfer, a: Address, i: nat, p: Piece): Op
    requires Holds(t, i + PieceWords(p))
  {
    var b := WordAddress(a, i);
    match t
    case Reading => (match p case Single => Read32(b) case Block(n) => ReadBlock(b, n, false))
    case Writing(words) =>
      (match p case Single => Write32(b, words[i]) case Block(n) => WriteBlock(b, words[i..i + n], false))
  }

  /** The operations of a split of the transfer that starts at `a`. */
  function SplitOps(t: Transfer, a: Address, ps: seq<Piece>): seq<Op>
    requires Holds(t, SplitWords(ps))
  {
    if ps == [] then [] else
      var front := ps[..|ps| - 1];
      SplitOps(t, a, front) + [PieceOp(t, a, SplitWords(front), ps[|ps| - 1])]
  }

  /** The first n words of the transfer as one block. */
  function WholeOp(t: Transfer, a: Address, n: nat): Op
    requires Holds(t, n)
  {
    match t case Reading => ReadBlock(a, n, false) case Writing(words) => WriteBlock(a, words[..n], false)
  }

  ghost function TransferSteps(t: Transfer, a: Address, n: nat): seq<Step>
    requires Holds(t, n)
  {
    match t case Reading => ReadSteps(a, n) case Writing(words) => WriteSteps(a, words, n)
  }

  // --------------------------------------------------------------- same effect

  /** Wrapping once in the middle of a sum makes no difference. */
  lemma WrapTwice(x: nat, y: nat)
    ensures (x % 0x1_0000_0000_0000_0000 + y) % 0x1_0000_0000_0000_0000 == (x + y) % 0x1_0000_0000_0000_0000
  {
  }

  lemma AddressOffset(a: Address, i: nat, k: nat)
    ensures WordAddress(WordAddress(a, i), k) == WordAddress(a, i + k)
  {
    WrapTwice(a + 4 * i, 4 * k);
    assert a + 4 * i + 4 * k == a + 4 * (i + k);
  }

  lemma BlockDecodes(a: Address, i: nat, n: nat)
    requires forall k :: 0 <= k < i + n ==> Decodes(WordAddress(a, k))
    ensures Fault(WordAddress(a, i), n) == n
  {
    hide WordAddress, Decodes;
    forall k | 0 <= k < n ensures Decodes(WordAddress(WordAddress(a, i), k)) {
      AddressOffset(a, i, k);
    }
    FaultIs(WordAddress(a, i), n, n);
  }

  lemma ReadStepsJoin(a: Address, i: nat, n: nat)
    ensures ReadSteps(a, i) + ReadSteps(WordAddress(a, i), n) == ReadSteps(a, i + n)
  {
    hide WordAddress, ReadSteps;
    var joined := ReadSteps(a, i) + ReadSteps(WordAddress(a, i), n);
    forall j | i <= j < i + n ensures joined[j] == Rd(WordAddress(a, j)) {
      AddressOffset(a, i, j - i);
    }
  }

  lemma WriteStepsJoin(a: Address, words: seq<Word>, i: nat, n: nat)
    requires i + n <= |words|
    ensures WriteSteps(a, words, i) + WriteSteps(WordAddress(a, i), words[i..i + n], n) == WriteSteps(a, words, i + n)
  {
    hide WordAddress, WriteSteps;
    var joined := WriteSteps(a, words, i) + WriteSteps(WordAddress(a, i), words[i..i + n], n);
    forall j | i <= j < i + n ensures joined[j] == Wr(WordAddress(a, j), words[j]) {
      AddressOffset(a, i, j - i);
    }
  }

  lemma BlockSteps(t: Transfer, a: Address, i: nat, n: nat)
    requires Holds(t, i + n) && forall k :: 0 <= k < i + n ==> Decodes(WordAddress(a, k))
    ensures TransferSteps(t, a, i) + StepsOf(PieceOp(t, a, i, Block(n))) == TransferSteps(t, a, i + n)
    ensures ErrorOf(PieceOp(t, a, i, Block(n))).None?
  {
    hide WordAddress, Decodes, ReadSteps, WriteSteps, Fault;
    BlockDecodes(a, i, n);
    match t
    case Reading => ReadStepsJoin(a, i, n);
    case Writing(words) => WriteStepsJoin(a, words, i, n);
  }

  lemma SingleSteps(t: Transfer, a: Address, i: nat)
    requires Holds(t, i + 1) && forall k :: 0 <= k < i + 1 ==> Decodes(WordAddress(a, k))
    ensures TransferSteps(t, a, i) + StepsOf(PieceOp(t, a, i, Single)) == TransferSteps(t, a, i + 1)
    ensures ErrorOf(PieceOp(t, a, i, Single)).None?
  {
    hide WordAddress, Decodes;
  }

  lemma WholeSteps(t: Transfer, a: Address, n: nat)
    requires Holds(t, n) && forall k :: 0 <= k < n ==> Decodes(WordAddress(a, k))
    ensures StepsOf(WholeOp(t, a, n)) == TransferSteps(t, a, n)
  {
    hide WordAddress, Decodes;
    FaultIs(a, n, n);
  }

  /**
   * Every split of a transfer whose words all decode makes the same accesses in the same order,
   * and leaves the device where the one block would.
   */
  lemma SplitsAgree(d: DeviceState, t: Transfer, a: Address, ps: seq<Piece>)
    requires Holds(t, SplitWords(ps))
    requires forall k :: 0 <= k < SplitWords(ps) ==> Decodes(WordAddress(a, k))
    ensures Flatten(SplitOps(t, a, ps)) == TransferSteps(t, a, SplitWords(ps))
    ensures RunOps(d, SplitOps(t, a, ps)) == AfterOp(d, WholeOp(t, a, SplitWords(ps)))
  {
    hide Run, RunOps, WordAddress, Decodes, StepsOf, TransferSteps, SplitOps, Flatten;
    SplitSteps(t, a, ps);
    OpsAreSteps(d, SplitOps(t, a, ps));
    WholeSteps(t, a, SplitWords(ps));
  }

  lemma {:induction false} SplitSteps(t: Transfer, a: Address, ps: seq<Piece>)
    requires Holds(t, SplitWords(ps))
    requires forall k :: 0 <= k < SplitWords(ps) ==> Decodes(WordAddress(a, k))
    ensures Flatten(SplitOps(t, a, ps)) == TransferSteps(t, a, SplitWords(ps))
  {
    if ps != [] {
      var front, last := ps[..|ps| - 1], ps[|ps| - 1];
      SplitSteps(t, a, front);
      match last {
        case Single => SingleSteps(t, a, SplitWords(front));
        case Block(n) => BlockSteps(t, a, SplitWords(front), n);
      }
      var ops := SplitOps(t, a, ps);
      assert ops[..|ops| - 1] == SplitOps(t, a, front);
      hide WordAddress, Decodes, StepsOf, PieceOp;
    }
  }

  // ------------------------------------------------------------ same words read

  function WordsIn(reply: Reply): seq<Word> {
    match reply
    case Value(w) => [w]
    case Values(ws) => ws
    case _ => []
  }

  /** The words a sequence of replies brings back, in order. */
  function ReadBack(replies: seq<Reply>): seq<Word> {
    if replies == [] then [] else ReadBack(replies[..|replies| - 1]) + WordsIn(replies[|replies| - 1])
  }

  /** A block read continues where the words before it ended. */
  lemma ReadWordsJoin(d: DeviceState, a: Address, i: nat, n: nat)
    ensures ReadWords(d, a, i) + ReadWords(Run(d, ReadSteps(a, i)), WordAddress(a, i), n) == ReadWords(d, a, i + n)
  {
    hide WordAddress, Run, ReadSteps, ReadWords;
    var joined := ReadWords(d, a, i) + ReadWords(Run(d, ReadSteps(a, i)), WordAddress(a, i), n);
    forall j | i <= j < i + n ensures joined[j] == ReadWords(d, a, i + n)[j] {
      WordContinues(d, a, i, j - i);
    }
  }

  lemma WordContinues(d: DeviceState, a: Address, i: nat, k: nat)
    ensures Run(Run(d, ReadSteps(a, i)), ReadSteps(WordAddress(a, i), k + 1)).Reg(WordAddress(WordAddress(a, i), k))
         == Run(d, ReadSteps(a, i + k + 1)).Reg(WordAddress(a, i + k))
  {
    hide WordAddress, Run, ReadSteps;
    AddressOffset(a, i, k);
    RunAppend(d, ReadSteps(a, i), ReadSteps(WordAddress(a, i), k + 1));
    ReadStepsJoin(a, i, k + 1);
  }

  lemma PieceReads(d: DeviceState, a: Address, i: nat, p: Piece)
    requires forall k :: 0 <= k < i + PieceWords(p) ==> Decodes(WordAddress(a, k))
    ensures WordsIn(ReplyTo(d, PieceOp(Reading, a, i, p))) == ReadWords(d, WordAddress(a, i), PieceWords(p))
  {
    match p
    case Block(n) =>
      hide Next, WordAddress, Decodes, Fault;
      BlockDecodes(a, i, n);
    case Single =>
      hide Decodes;
      OneWordRead(d, WordAddress(a, i));
      hide Next, WordAddress, ReadWords;
  }

  lemma OneWordRead(d: DeviceState, b: Address)
    ensures ReadWords(d, b, 1) == [Next(d, Rd(b)).Reg(b)]
  {
    hide Next;
    AddressOffset(b, 0, 0);
    assert WordAddress(b, 0) == b;
    NoSteps(d);
    ReadOneMore(d, b, 0);
    hide Run, WordAddress;
  }

  lemma WholeReads(d: DeviceState, a: Address, n: nat)
    requires forall k :: 0 <= k < n ==> Decodes(WordAddress(a, k))
    ensures ReplyTo(d, WholeOp(Reading, a, n)) == Values(ReadWords(d, a, n))
  {
    hide WordAddress, Decodes, ReadWords;
    FaultIs(a, n, n);
  }

  /** One more piece reads on where the pieces before it ended. */
  lemma PieceReadsOn(d: DeviceState, a: Address, ps: seq<Piece>, p: Piece)
    requires forall k :: 0 <= k < SplitWords(ps) + PieceWords(p) ==> Decodes(WordAddress(a, k))
    ensures ReadWords(d, a, SplitWords(ps))
          + WordsIn(ReplyTo(RunOps(d, SplitOps(Reading, a, ps)), PieceOp(Reading, a, SplitWords(ps), p)))
         == ReadWords(d, a, SplitWords(ps) + PieceWords(p))
  {
    hide WordAddress, Decodes, ReadWords, Run, RunOps, PieceOp, SplitOps, ReplyTo, WordsIn, SplitWords, PieceWords;
    SplitState(d, a, ps);
    PieceReads(RunOps(d, SplitOps(Reading, a, ps)), a, SplitWords(ps), p);
    ReadWordsJoin(d, a, SplitWords(ps), PieceWords(p));
  }

  lemma {:induction false} SplitReadsBack(d: DeviceState, a: Address, ps: seq<Piece>)
    requires forall k :: 0 <= k < SplitWords(ps) ==> Decodes(WordAddress(a, k))
    ensures ReadBack(Replies(d, SplitOps(Reading, a, ps))) == ReadWords(d, a, SplitWords(ps))
  {
    hide WordAddress, Decodes, RunOps, PieceOp, ReplyTo, WordsIn, PieceWords;
    if ps != [] {
      var front, last := ps[..|ps| - 1], ps[|ps| - 1];
      SplitReadsBack(d, a, front);
      PieceReadsOn(d, a, front, last);
      ReadsOneMore(d, SplitOps(Reading, a, front), PieceOp(Reading, a, SplitWords(front), last));
      hide ReadBack, Replies, ReadWords;
    }
  }

  /** A split of a read whose words all decode brings back the words the one block would, in order. */
  lemma SplitReads(d: DeviceState, a: Address, ps: seq<Piece>)
    requires forall k :: 0 <= k < SplitWords(ps) ==> Decodes(WordAddress(a, k))
    ensures ReplyTo(d, WholeOp(Reading, a, SplitWords(ps))) == Values(ReadBack(Replies(d, SplitOps(Reading, a, ps))))
  {
    hide WordAddress, Decodes, ReplyTo, ReadBack, Replies, SplitOps, SplitWords, WholeOp;
    WholeReads(d, a, SplitWords(ps));
    SplitReadsBack(d, a, ps);
  }

  lemma ReadsOneMore(d: DeviceState, ops: seq<Op>, op: Op)
    ensures ReadBack(Replies(d, ops + [op])) == ReadBack(Replies(d, ops)) + WordsIn(ReplyTo(RunOps(d, ops), op))
  {
    hide ReplyTo, RunOps, WordsIn;
    assert (ops + [op])[..|ops|] == ops;
    var replies, last := Replies(d, ops), ReplyTo(RunOps(d, ops), op);
    assert Replies(d, ops + [op]) == replies + [last];
    hide Replies;
    assert (replies + [last])[..|replies|] == replies;
  }

  lemma SplitState(d: DeviceState, a: Address, ps: seq<Piece>)
    requires forall k :: 0 <= k < SplitWords(ps) ==> Decodes(WordAddress(a, k))
    ensures RunOps(d, SplitOps(Reading, a, ps)) == Run(d, ReadSteps(a, SplitWords(ps)))
  {
    hide WordAddress, Decodes, Run, RunOps, SplitOps, Flatten;
    SplitSteps(Reading, a, ps);
    OpsAreSteps(d, SplitOps(Reading, a, ps));
  }

  // ------------------------------------------------------------------- least cost

  /** Cost in quarters of one access: a single is 4, a block of n words is 4 + n. */
  function Quarters(ps: seq<Piece>): nat {
    if ps == [] then 0 else
      Quarters(ps[..|ps| - 1]) + match ps[|ps| - 1] case Single => 4 case Block(n) => 4 + n
  }

  function Singles(ps: seq<Piece>): nat {
    if ps == [] then 0 else Singles(ps[..|ps| - 1]) + if ps[|ps| - 1].Single? then 1 else 0
  }

  lemma {:induction false} QuartersAre(ps: seq<Piece>)
    ensures Quarters(ps) + Singles(ps) == 4 * |ps| + SplitWords(ps)
    ensures Singles(ps) <= |ps| && Singles(ps) <= SplitWords(ps)
    ensures Singles(ps) == |ps| ==> SplitWords(ps) == |ps|
  {
    if ps != [] { QuartersAre(ps[..|ps| - 1]); }
  }

  /** What a number of quarter accesses costs. */
  ghost function Price(ns: real, quarters: nat): real {
    0.25 * ns * quarters as real
  }

  lemma PriceAdds(ns: real, q: nat, r: nat)
    ensures Price(ns, q + r) == Price(ns, q) + Price(ns, r)
  {
  }

  lemma PriceOfOne(ns: real)
    ensures Price(ns, 4) == ns && Price(ns, 0) == 0.0
  {
  }

  lemma PriceOfBlock(ns: real, n: nat)
    ensures BlockCost(ns, n) == Price(ns, 4 + n)
  {
    PriceAdds(ns, 4, n);
  }

  lemma PriceGrows(ns: real, q: nat, r: nat)
    requires ns >= 0.0 && q <= r
    ensures Price(ns, q) <= Price(ns, r)
  {
    PriceAdds(ns, q, r - q);
  }

  lemma PieceCost(ns: real, t: Transfer, a: Address, i: nat, p: Piece)
    requires Holds(t, i + PieceWords(p))
    ensures OpCost(ns, PieceOp(t, a, i, p)) == Price(ns, match p case Single => 4 case Block(n) => 4 + n)
  {
    PriceOfOne(ns);
    if p.Block? { PriceOfBlock(ns, p.words); }
    hide Price, BlockCost, WordAddress;
  }

  lemma CostStep(ns: real, ops: seq<Op>, op: Op)
    ensures TotalCost(ns, ops + [op]) == TotalCost(ns, ops) + OpCost(ns, op)
  {
    hide OpCost;
    assert (ops + [op])[..|ops|] == ops;
  }

  lemma {:induction false} CostIsQuarters(ns: real, t: Transfer, a: Address, ps: seq<Piece>)
    requires Holds(t, SplitWords(ps))
    ensures TotalCost(ns, SplitOps(t, a, ps)) == Price(ns, Quarters(ps))
  {
    hide Price, OpCost, PieceOp, BlockCost;
    if ps == [] {
      PriceOfOne(ns);
    } else {
      var front, last := ps[..|ps| - 1], ps[|ps| - 1];
      CostIsQuarters(ns, t, a, front);
      CostStep(ns, SplitOps(t, a, front), PieceOp(t, a, SplitWords(front), last));
      PieceCost(ns, t, a, SplitWords(front), last);
      PriceAdds(ns, Quarters(front), match last case Single => 4 case Block(n) => 4 + n);
      hide TotalCost;
    }
  }

  lemma PriceOrders(ns: real, q: nat, r: nat)
    requires ns > 0.0
    ensures Price(ns, q) < Price(ns, r) <==> q < r
  {
    if q < r { PriceGap(ns, q, r); } else { PriceGrows(ns, r, q); }
  }

  lemma PriceGap(ns: real, q: nat, r: nat)
    requires ns > 0.0 && q < r
    ensures Price(ns, q) < Price(ns, r)
  {
    PriceAdds(ns, q, r - q);
    PriceGrows(ns, 1, r - q);
    hide Price;
    PriceOfQuarter(ns);
  }

  lemma PriceOfQuarter(ns: real)
    requires ns > 0.0
    ensures Price(ns, 1) > 0.0
  {
  }

  /**
   * For two or more words, read or written, no split is cheaper than one block, and at a positive
   * price every split into several pieces is dearer.
   */
  lemma OneBlockIsCheapest(ns: real, t: Transfer, a: Address, ps: seq<Piece>)
    requires ns >= 0.0 && SplitWords(ps) >= 2 && Holds(t, SplitWords(ps))
    ensures OpCost(ns, WholeOp(t, a, SplitWords(ps))) <= TotalCost(ns, SplitOps(t, a, ps))
    ensures ns > 0.0 ==> (OpCost(ns, WholeOp(t, a, SplitWords(ps))) == TotalCost(ns, SplitOps(t, a, ps)) <==> |ps| == 1)
  {
    hide Price, BlockCost;
    QuartersAre(ps);
    CostIsQuarters(ns, t, a, ps);
    PriceOfBlock(ns, SplitWords(ps));
    PriceGrows(ns, 4 + SplitWords(ps), Quarters(ps));
    if ns > 0.0 {
      PriceOrders(ns, 4 + SplitWords(ps), Quarters(ps));
      assert 4 + SplitWords(ps) == Quarters(ps) <==> |ps| == 1;
    }
  }

  /**
   * For one word no split is cheaper than a single access, at a positive price every other split is
   * dearer, and a block of one costs a quarter more.
   */
  lemma OneSingleIsCheapest(ns: real, t: Transfer, a: Address, ps: seq<Piece>)
    requires ns >= 0.0 && SplitWords(ps) == 1 && Holds(t, 1)
    ensures OpCost(ns, PieceOp(t, a, 0, Single)) <= TotalCost(ns, SplitOps(t, a, ps))
    ensures ns > 0.0 ==> (OpCost(ns, PieceOp(t, a, 0, Single)) == TotalCost(ns, SplitOps(t, a, ps)) <==> ps == [Single])
    ensures OpCost(ns, WholeOp(t, a, 1)) == OpCost(ns, PieceOp(t, a, 0, Single)) + 0.25 * ns
  {
    assert BlockCost(ns, 1) == ns + 0.25 * ns;
    hide Price, BlockCost;
    QuartersAre(ps);
    CostIsQuarters(ns, t, a, ps);
    PriceOfOne(ns);
    PriceGrows(ns, 4, Quarters(ps));
    if ns > 0.0 {
      PriceOrders(ns, 4, Quarters(ps));
      OnlySingle(ps);
    }
  }

  lemma OnlySingle(ps: seq<Piece>)
    requires SplitWords(ps) == 1
    ensures Quarters(ps) == 4 <==> ps == [Single]
  {
    QuartersAre(ps);
    if |ps| == 1 { assert ps == [ps[0]] && ps[..0] == []; }
  }
}
