/**
 * `MappedRegion` (include/soc/transport.hpp): one owner per buffer through construction, moves,
 * move-assignment and destruction, over any number of regions.
 */
module MappedRegions {
  import opened Names
  import opened Results
  import opened Words
  import opened Device
  import opened DmaRuns
  import opened Transports

  /** `new[]` and `delete[]`. Deleting a buffer that is not live is undefined, so it is a precondition. */
  class Allocator {
    var live: set<array<Word>>
    var freed: seq<array<Word>>

    /** How many buffers were ever allocated. */
    ghost function Total(): nat
      reads this
    {
      |live| + |freed|
    }

    /** Nothing was freed twice, and nothing freed is still in use. */
    ghost predicate Valid()
      reads this
    {
      && (forall i, j :: 0 <= i < j < |freed| ==> freed[i] != freed[j])
      && (forall i :: 0 <= i < |freed| ==> freed[i] !in live)
    }

    constructor ()
      ensures Valid() && live == {} && freed == []
    {
      live, freed := {}, [];
    }

    method New(words: nat) returns (p: array<Word>)
      requires Valid()
      modifies this
      ensures Valid() && fresh(p) && p.Length == words && forall i :: 0 <= i < words ==> p[i] == 0
      ensures live == old(live) + {p} && freed == old(freed) && p !in old(live)
      ensures Total() == old(Total()) + 1
    {
      p := new Word[words](_ => 0);
      live := live + {p};
    }

    method Delete(p: array?<Word>)
      requires Valid() && (p == null || p in live)
      modifies this
      ensures Valid()
      ensures Total() == old(Total())
      ensures p == null ==> live == old(live) && freed == old(freed)
      ensures p != null ==> live == old(live) - {p} && freed == old(freed) + [p]
    {
      if p != null {
        live := live - {p};
        freed := freed + [p];
      }
    }
  }

  /** What a region holds. */
  datatype Slot = Slot(data: array?<Word>, words: nat, base: Address)

  class MappedRegion {
    var data: array?<Word>
    var words: nat
    var base: Address

    ghost function Holds(): Slot
      reads this
    {
      Slot(data, words, base)
    }

    ghost predicate Ok()
      reads this
    {
      if data == null then words == 0 else data.Length == words
    }

    constructor Empty()
      ensures data == null && words == 0 && base == 0
    {
      data, words, base := null, 0, 0;
    }

    /** Takes over another region's buffer and leaves it empty. */
    constructor Move(other: MappedRegion)
      modifies other
      ensures data == old(other.data) && words == old(other.words) && base == old(other.base)
      ensures other.data == null && other.words == 0 && other.base == 0
    {
      data, words, base := other.data, other.words, other.base;
      new;
      other.data, other.words, other.base := null, 0, 0;
    }

    constructor Over(data: array<Word>, words: nat, base: Address)
      ensures this.data == data && this.words == words && this.base == base
    {
      this.data, this.words, this.base := data, words, base;
    }

    /** Frees its own buffer, unless the source is itself, and takes over the other's. */
    method MoveAssign(heap: Allocator, other: MappedRegion)
      requires heap.Valid() && (data == null || data in heap.live)
      modifies heap, this, other
      ensures heap.Valid() && heap.Total() == old(heap.Total())
      ensures this == other ==>
                && data == old(data) && words == old(words) && base == old(base)
                && heap.live == old(heap.live) && heap.freed == old(heap.freed)
      ensures this != other ==>
                && data == old(other.data) && words == old(other.words) && base == old(other.base)
                && other.data == null && other.words == 0 && other.base == 0
                && heap.live == (if old(data) == null then old(heap.live) else old(heap.live) - {old(data)})
                && heap.freed == (if old(data) == null then old(heap.freed) else old(heap.freed) + [old(data)])
    {
      if this != other {
        heap.Delete(data);
        data, other.data := other.data, null;
        words, other.words := other.words, 0;
        base, other.base := other.base, 0;
      }
    }

    /** The destructor. */
    method Destroy(heap: Allocator)
      requires heap.Valid() && (data == null || data in heap.live)
      modifies heap
      ensures heap.Valid() && heap.Total() == old(heap.Total())
      ensures heap.live == (if data == null then old(heap.live) else old(heap.live) - {data})
      ensures heap.freed == (if data == null then old(heap.freed) else old(heap.freed) + [data])
    {
      heap.Delete(data);
    }

    method At(index: nat) returns (r: Result<Word, ()>)
      requires Ok()
      ensures r == if data != null && index < words then Success(data[index]) else Failure(())
    {
      if index >= words {
        return Failure(());
      }
      return Success(data[index]);
    }
  }

  /** Live buffers and non-null regions correspond one to one. */
  ghost predicate Owned(heap: Allocator, rs: set<MappedRegion>)
    reads heap, rs
  {
    && heap.Valid()
    && (forall r :: r in rs ==> r.Ok())
    && (forall r :: r in rs && r.data != null ==> r.data in heap.live)
    && (forall r, s :: r in rs && s in rs && r != s && r.data != null ==> r.data != s.data)
    && (forall p :: p in heap.live ==> exists r :: r in rs && r.data == p)
  }

  /** As `Owned`, but for one buffer `p` that no region holds yet. */
  ghost predicate OwnedBut(heap: Allocator, rs: set<MappedRegion>, p: array<Word>)
    reads heap, rs
  {
    && heap.Valid() && p in heap.live
    && (forall r :: r in rs ==> r.Ok() && r.data != p)
    && (forall r :: r in rs && r.data != null ==> r.data in heap.live)
    && (forall r, s :: r in rs && s in rs && r != s && r.data != null ==> r.data != s.data)
    && (forall q :: q in heap.live && q != p ==> exists r :: r in rs && r.data == q)
  }

  lemma BlockOutcome(before: StackView, after: StackView, a: Address, read: seq<Word>, r: Result<(), BusError>)
    requires Transparent(before, after, ReadBlock(a, |read|, false),
                         match r case Success(_) => Values(read) case Failure(e) => Threw(e))
    ensures after.base == AfterOp(before.base, ReadBlock(a, |read|, false))
    ensures r.Success? <==> Fault(a, |read|) == |read|
    ensures r.Failure? ==> r.error == Undecoded(WordAddress(a, Fault(a, |read|)))
    ensures r.Success? ==> read == ReadWords(before.base, a, |read|)
  {
    hide Metered, Recorded, Run;
  }

  method Fill(transport: Transport, base: Address, data: array<Word>) returns (r: Result<(), BusError>)
    requires transport.Valid()
    modifies transport.Repr(), data
    ensures transport.Valid()
    ensures transport.Base() == AfterOp(old(transport.Base()), ReadBlock(base, data.Length, false))
    ensures r.Success? <==> Fault(base, data.Length) == data.Length
    ensures r.Failure? ==> r.error == Undecoded(WordAddress(base, Fault(base, data.Length)))
    ensures r.Success? ==> data[..] == ReadWords(old(transport.Base()), base, data.Length)
  {
    hide Transparent, Filled, Fault, AfterOp;
    r := transport.ReadMany(base, data, data.Length);
    assert data[..data.Length] == data[..];
    BlockOutcome(old(transport.View()), transport.View(), base, data[..], r);
  }

  method Allocate(heap: Allocator, words: nat, ghost rs: set<MappedRegion>) returns (p: array<Word>)
    requires Owned(heap, rs)
    modifies heap
    ensures fresh(p) && p.Length == words && OwnedBut(heap, rs, p) && p !in old(heap.live)
    ensures heap.live == old(heap.live) + {p} && heap.freed == old(heap.freed) && heap.Total() == old(heap.Total()) + 1
  {
    p := heap.New(words);
  }

  method Abandon(heap: Allocator, p: array<Word>, ghost rs: set<MappedRegion>)
    requires OwnedBut(heap, rs, p)
    modifies heap
    ensures Owned(heap, rs) && heap.live == old(heap.live) - {p}
    ensures heap.freed == old(heap.freed) + [p] && heap.Total() == old(heap.Total())
  {
    heap.Delete(p);
  }

  method Adopt(heap: Allocator, p: array<Word>, base: Address, ghost rs: set<MappedRegion>) returns (r: MappedRegion)
    requires OwnedBut(heap, rs, p)
    ensures fresh(r) && Owned(heap, rs + {r}) && r.Holds() == Slot(p, p.Length, base)
  {
    r := new MappedRegion.Over(p, p.Length, base);
  }

  /** A transport stack holds neither regions nor their allocator. */
  lemma Apart(transport: Transport, heap: Allocator, rs: set<MappedRegion>)
    ensures heap !in transport.Repr() && transport.Bottom() in transport.Repr()
    ensures forall r :: r in rs ==> r !in transport.Repr()
  {
  }

  /**
   * The filling constructor allocates one buffer. If the fill throws, that buffer is freed and no
   * region comes to be; otherwise the region holds it, with the words read.
   */
  method Map(heap: Allocator, transport: Transport, base: Address, words: nat, ghost rs: set<MappedRegion>)
    returns (r: Result<MappedRegion, BusError>)
    requires transport.Valid() && Owned(heap, rs)
    modifies heap, transport.Repr()
    ensures transport.Valid()
    ensures transport.Base() == AfterOp(old(transport.Base()), ReadBlock(base, words, false))
    ensures heap.Total() == old(heap.Total()) + 1
    ensures r.Success? <==> Fault(base, words) == words
    ensures r.Success? ==>
              && fresh(r.value) && Owned(heap, rs + {r.value})
              && r.value.data != null && fresh(r.value.data) && r.value.words == words && r.value.base == base
              && r.value.data[..] == ReadWords(old(transport.Base()), base, words)
              && heap.live == old(heap.live) + {r.value.data} && heap.freed == old(heap.freed)
    ensures r.Failure? ==>
              && Owned(heap, rs) && r.error == Undecoded(WordAddress(base, Fault(base, words)))
              && heap.live == old(heap.live)
              && |heap.freed| == |old(heap.freed)| + 1 && heap.freed[..|old(heap.freed)|] == old(heap.freed)
              && fresh(heap.freed[|old(heap.freed)|])
  {
    hide AfterOp, Fault, OwnedBut, Owned, WordAddress, Transport.Base, Transport.Valid, Transport.Repr;
    ReprAllocated(transport);
    Apart(transport, heap, rs);
    var data := Allocate(heap, words, rs);
    var filled := Fill(transport, base, data);
    if filled.Failure? {
      Abandon(heap, data, rs);
      return Failure(filled.error);
    }
    var region := Adopt(heap, data, base, rs);
    return Success(region);
  }

  // --------------------------------------------------------- any sequence of uses

  datatype RegionOp =
    | Default
    | MapAt(base: Address, words: nat)
    | MoveFrom(i: nat)
    | AssignFrom(i: nat, j: nat)
    | Drop(i: nat)

  const EMPTY := Slot(null, 0, 0)

  /** What the regions of a table hold. */
  ghost function Slots(regions: seq<MappedRegion>): (slots: seq<Slot>)
    reads Elements(regions)
    ensures |slots| == |regions| && forall i :: 0 <= i < |regions| ==> slots[i] == regions[i].Holds()
  {
    if regions == [] then [] else
      var front := regions[..|regions| - 1];
      assert forall r :: r in front ==> r in Elements(regions);
      Slots(front) + [regions[|regions| - 1].Holds()]
  }

  /** What the table holds after a use that maps nothing; an index out of range does nothing. */
  ghost function SlotsAfter(slots: seq<Slot>, op: RegionOp): seq<Slot>
    requires !op.MapAt?
  {
    match op
    case Default => slots + [EMPTY]
    case MoveFrom(i) => if i < |slots| then slots[i := EMPTY] + [slots[i]] else slots
    case AssignFrom(i, j) =>
      if i < |slots| && j < |slots| && i != j then slots[i := slots[j]][j := EMPTY] else slots
    case Drop(i) => if i < |slots| then slots[..i] + slots[i + 1..] else slots
  }

  /** The buffer such a use frees, if it frees one. */
  ghost function FreedBy(slots: seq<Slot>, op: RegionOp): Option<array<Word>>
    requires !op.MapAt?
  {
    var index := match op case AssignFrom(i, j) => (if j < |slots| && i != j then i else |slots|)
                          case Drop(i) => i
                          case _ => |slots|;
    if index < |slots| && slots[index].data != null then Some(slots[index].data) else None
  }

  ghost predicate Table(heap: Allocator, regions: seq<MappedRegion>)
    reads heap, Elements(regions)
  {
    Distinct(regions) && Owned(heap, Elements(regions))
  }

  /** The heap after freeing a buffer, or none. */
  twostate predicate Freed(heap: Allocator, p: Option<array<Word>>)
    reads heap
  {
    && heap.Total() == old(heap.Total())
    && match p
       case None => heap.live == old(heap.live) && heap.freed == old(heap.freed)
       case Some(q) => heap.live == old(heap.live) - {q} && heap.freed == old(heap.freed) + [q]
  }

  lemma AppendMember(regions: seq<MappedRegion>, r: MappedRegion)
    ensures Elements(regions + [r]) == Elements(regions) + {r}
    ensures Distinct(regions) && r !in regions ==> Distinct(regions + [r])
  {
  }

  lemma RemoveMember(regions: seq<MappedRegion>, i: nat)
    requires i < |regions| && Distinct(regions)
    ensures Distinct(regions[..i] + regions[i + 1..])
    ensures Elements(regions[..i] + regions[i + 1..]) == Elements(regions) - {regions[i]}
  {
    var rest := regions[..i] + regions[i + 1..];
    forall r | r in Elements(regions) - {regions[i]} ensures r in rest {
      var k :| 0 <= k < |regions| && regions[k] == r;
      assert rest[if k < i then k else k - 1] == r;
    }
  }

  /** Destroys one region of a set. */
  method DestroyOne(heap: Allocator, r: MappedRegion, ghost rs: set<MappedRegion>)
    requires r in rs && Owned(heap, rs)
    modifies heap
    ensures Owned(heap, rs - {r})
    ensures Freed(heap, if r.data == null then None else Some(r.data))
  {
    r.Destroy(heap);
  }

  method AddEmpty(heap: Allocator, regions: seq<MappedRegion>) returns (regions': seq<MappedRegion>)
    requires Table(heap, regions)
    ensures Table(heap, regions') && Slots(regions') == SlotsAfter(Slots(regions), Default)
    ensures forall r :: r in regions' ==> r in regions || fresh(r)
  {
    var r := new MappedRegion.Empty();
    AppendMember(regions, r);
    regions' := regions + [r];
  }

  lemma SlotsAre(regions: seq<MappedRegion>, slots: seq<Slot>)
    requires |slots| == |regions| && forall i :: 0 <= i < |regions| ==> slots[i] == regions[i].Holds()
    ensures Slots(regions) == slots
  {
  }

  lemma SlotsWithout(regions: seq<MappedRegion>, i: nat)
    requires i < |regions|
    ensures Slots(regions[..i] + regions[i + 1..]) == Slots(regions)[..i] + Slots(regions)[i + 1..]
  {
    hide Slots;
    SlotsAre(regions[..i] + regions[i + 1..], Slots(regions)[..i] + Slots(regions)[i + 1..]);
  }

  /** Move-constructs a region from one of a set. */
  method MoveOne(heap: Allocator, other: MappedRegion, ghost rs: set<MappedRegion>) returns (r: MappedRegion)
    requires other in rs && Owned(heap, rs)
    modifies other
    ensures fresh(r) && Owned(heap, rs + {r})
    ensures r.Holds() == old(other.Holds()) && other.Holds() == EMPTY
  {
    assert other.Ok();
    r := new MappedRegion.Move(other);
  }

  method AddMoved(heap: Allocator, regions: seq<MappedRegion>, i: nat) returns (regions': seq<MappedRegion>)
    requires Table(heap, regions) && i < |regions|
    modifies regions[i]
    ensures Table(heap, regions') && Slots(regions') == SlotsAfter(old(Slots(regions)), MoveFrom(i))
    ensures forall r :: r in regions' ==> r in regions || fresh(r)
  {
    hide Owned;
    ghost var slots := Slots(regions);
    var r := MoveOne(heap, regions[i], Elements(regions));
    AppendMember(regions, r);
    regions' := regions + [r];
    SlotsAre(regions', slots[i := EMPTY] + [slots[i]]);
  }

  /** The table after a filling construction at `base`: one more region, or a buffer freed at once. */
  twostate predicate Mapped(heap: Allocator, transport: Transport, regions: seq<MappedRegion>,
                            new regions': seq<MappedRegion>, base: Address, words: nat)
    reads heap, transport.Repr(), Elements(regions), Elements(regions')
  {
    && transport.Base() == AfterOp(old(transport.Base()), ReadBlock(base, words, false))
    && heap.Total() == old(heap.Total()) + 1
    && if Fault(base, words) == words then
         && |regions'| == |regions| + 1 && regions'[..|regions|] == regions
         && fresh(regions'[|regions|])
         && var slot := regions'[|regions|].Holds();
            && slot.data != null && fresh(slot.data) && slot.words == words && slot.base == base
            && heap.live == old(heap.live) + {slot.data} && heap.freed == old(heap.freed)
       else
         && regions' == regions && heap.live == old(heap.live)
         && |heap.freed| == |old(heap.freed)| + 1 && heap.freed[..|old(heap.freed)|] == old(heap.freed)
         && fresh(heap.freed[|old(heap.freed)|])
  }

  method AddMapped(heap: Allocator, transport: Transport, regions: seq<MappedRegion>, base: Address, words: nat)
    returns (regions': seq<MappedRegion>)
    requires transport.Valid() && Table(heap, regions)
    modifies heap, transport.Repr()
    ensures transport.Valid() && Table(heap, regions') && Mapped(heap, transport, regions, regions', base, words)
    ensures Slots(regions) == old(Slots(regions))
    ensures Fault(base, words) == words ==>
              regions'[|regions|].data[..] == ReadWords(old(transport.Base()), base, words)
    ensures forall r :: r in regions' ==> r in regions || fresh(r)
  {
    hide AfterOp, Fault, Transport.Base, Transport.Valid, Transport.Repr, Owned, Allocator.Total;
    Apart(transport, heap, Elements(regions));
    var r := Map(heap, transport, base, words, Elements(regions));
    if r.Failure? {
      return regions;
    }
    AppendMember(regions, r.value);
    regions' := regions + [r.value];
  }

  /** Move-assigns between two regions of a set, or a region to itself. */
  method AssignOne(heap: Allocator, r: MappedRegion, other: MappedRegion, ghost rs: set<MappedRegion>)
    requires r in rs && other in rs && Owned(heap, rs)
    modifies heap, r, other
    ensures Owned(heap, rs)
    ensures r.Holds() == old(other.Holds()) && other.Holds() == (if r == other then old(r.Holds()) else EMPTY)
    ensures Freed(heap, if r == other || old(r.data) == null then None else Some(old(r.data)))
  {
    assert r.Ok() && other.Ok();
    r.MoveAssign(heap, other);
  }

  method Reassign(heap: Allocator, regions: seq<MappedRegion>, i: nat, j: nat)
    requires Table(heap, regions) && i < |regions| && j < |regions|
    modifies heap, regions[i], regions[j]
    ensures Table(heap, regions) && Slots(regions) == SlotsAfter(old(Slots(regions)), AssignFrom(i, j))
    ensures Freed(heap, FreedBy(old(Slots(regions)), AssignFrom(i, j)))
  {
    hide Owned, Freed, Slots;
    ghost var slots := Slots(regions);
    AssignOne(heap, regions[i], regions[j], Elements(regions));
    SlotsAre(regions, if i == j then slots else slots[i := slots[j]][j := EMPTY]);
  }

  method Remove(heap: Allocator, regions: seq<MappedRegion>, i: nat) returns (regions': seq<MappedRegion>)
    requires Table(heap, regions) && i < |regions|
    modifies heap
    ensures Table(heap, regions') && Slots(regions') == SlotsAfter(old(Slots(regions)), Drop(i))
    ensures Freed(heap, FreedBy(old(Slots(regions)), Drop(i)))
    ensures forall r :: r in regions' ==> r in regions
  {
    hide Owned, Freed, Slots;
    ghost var slots := Slots(regions);
    RemoveMember(regions, i);
    DestroyOne(heap, regions[i], Elements(regions));
    regions' := regions[..i] + regions[i + 1..];
    SlotsWithout(regions, i);
  }

  lemma OutOfRange(slots: seq<Slot>, op: RegionOp)
    requires match op
             case MoveFrom(i) => i >= |slots|
             case AssignFrom(i, j) => i >= |slots| || j >= |slots|
             case Drop(i) => i >= |slots|
             case _ => false
    ensures SlotsAfter(slots, op) == slots && FreedBy(slots, op).None?
  {
  }

  lemma FreesNothing(slots: seq<Slot>, op: RegionOp)
    requires op.Default? || op.MoveFrom?
    ensures FreedBy(slots, op).None?
  {
  }

  /** One use of the class, on a table of regions. */
  method Use(heap: Allocator, transport: Transport, regions: seq<MappedRegion>, op: RegionOp)
    returns (regions': seq<MappedRegion>)
    requires transport.Valid() && Table(heap, regions)
    modifies heap, transport.Repr(), Elements(regions)
    ensures transport.Valid() && Table(heap, regions')
    ensures !op.MapAt? ==>
              && Slots(regions') == SlotsAfter(old(Slots(regions)), op)
              && Freed(heap, FreedBy(old(Slots(regions)), op))
    ensures op.MapAt? ==>
              Mapped(heap, transport, regions, regions', op.base, op.words) && Slots(regions) == old(Slots(regions))
    ensures heap.Total() == old(heap.Total()) + (if op.MapAt? then 1 else 0) && old(heap.freed) <= heap.freed
    ensures transport.Base() == if op.MapAt? then AfterOp(old(transport.Base()), ReadBlock(op.base, op.words, false))
                                else old(transport.Base())
    ensures forall r :: r in regions' ==> r in regions || fresh(r)
  {
    hide AfterOp, Fault, Transport.Base, Transport.Valid, Owned, Slots, SlotsAfter, FreedBy, Allocator.Total, Distinct;
    ReprAllocated(transport);
    ghost var slots := Slots(regions);
    match op
    case Default =>
      regions' := AddEmpty(heap, regions);
      FreesNothing(slots, op);
    case MapAt(base, words) =>
      regions' := AddMapped(heap, transport, regions, base, words);
    case MoveFrom(i) =>
      if i < |regions| {
        regions' := AddMoved(heap, regions, i);
        FreesNothing(slots, op);
      } else {
        regions' := regions;
        OutOfRange(slots, op);
      }
    case AssignFrom(i, j) =>
      regions' := regions;
      if i < |regions| && j < |regions| { Reassign(heap, regions, i, j); } else { OutOfRange(slots, op); }
    case Drop(i) =>
      regions' := regions;
      if i < |regions| { regions' := Remove(heap, regions, i); } else { OutOfRange(slots, op); }
  }

  lemma FirstRegion(regions: seq<MappedRegion>, i: nat)
    requires i < |regions| && Distinct(regions)
    ensures regions[i] in Elements(regions[i..])
    ensures Elements(regions[i..]) - {regions[i]} == Elements(regions[i + 1..])
  {
    var rest := regions[i + 1..];
    assert regions[i..] == [regions[i]] + rest;
    assert regions[i] !in rest by {
      assert forall k :: 0 <= k < |rest| ==> rest[k] == regions[i + 1 + k];
    }
  }

  /** Destroys every region; afterwards no buffer is allocated and every one ever allocated was freed once. */
  method DestroyAll(heap: Allocator, regions: seq<MappedRegion>)
    requires Distinct(regions) && Owned(heap, Elements(regions))
    modifies heap
    ensures heap.Valid() && heap.live == {}
    ensures |heap.freed| == old(heap.Total()) && old(heap.freed) <= heap.freed
  {
    hide Distinct;
    assert regions[0..] == regions;
    for i := 0 to |regions|
      invariant Owned(heap, Elements(regions[i..]))
      invariant heap.Total() == old(heap.Total()) && old(heap.freed) <= heap.freed
    {
      FirstRegion(regions, i);
      DestroyOne(heap, regions[i], Elements(regions[i..]));
    }
  }

  /** How many filling constructions a sequence of uses makes. */
  ghost function Maps(ops: seq<RegionOp>): nat {
    if ops == [] then 0 else Maps(ops[..|ops| - 1]) + if ops[|ops| - 1].MapAt? then 1 else 0
  }

  /** The block reads of those constructions, in order. */
  ghost function MapReads(ops: seq<RegionOp>): seq<Op> {
    if ops == [] then [] else
      var last := ops[|ops| - 1];
      MapReads(ops[..|ops| - 1]) + if last.MapAt? then [ReadBlock(last.base, last.words, false)] else []
  }

  lemma UsesOneMore(d: DeviceState, ops: seq<RegionOp>, op: RegionOp)
    ensures Maps(ops + [op]) == Maps(ops) + if op.MapAt? then 1 else 0
    ensures RunOps(d, MapReads(ops + [op]))
         == if op.MapAt? then AfterOp(RunOps(d, MapReads(ops)), ReadBlock(op.base, op.words, false))
            else RunOps(d, MapReads(ops))
  {
    hide AfterOp;
    assert (ops + [op])[..|ops|] == ops;
    var before := MapReads(ops);
    if op.MapAt? {
      var read := ReadBlock(op.base, op.words, false);
      assert (before + [read])[..|before|] == before;
    } else {
      assert before + [] == before;
    }
  }

  /**
   * Single ownership over any sequence of constructions, moves, assignments and destructions,
   * followed by the destruction of what is left: no buffer is allocated any more, one buffer was
   * freed for each filling construction, throwing ones included, and by `heap.Valid()` none twice.
   * The device has seen exactly the block reads of those constructions.
   */
  method UseAll(heap: Allocator, transport: Transport, ops: seq<RegionOp>)
    requires transport.Valid() && heap.Valid() && heap.live == {}
    modifies heap, transport.Repr()
    ensures heap.Valid() && heap.live == {}
    ensures |heap.freed| == |old(heap.freed)| + Maps(ops) && old(heap.freed) <= heap.freed
    ensures transport.Valid() && transport.Base() == RunOps(old(transport.Base()), MapReads(ops))
  {
    hide Transport.Base, Transport.Valid, Table, AfterOp, Fault, Freed, Mapped, Slots, SlotsAfter, FreedBy, RunOps;
    hide Maps, MapReads;
    ReprAllocated(transport);
    NoMaps(transport.Base());
    var regions: seq<MappedRegion> := [];
    assert Table(heap, regions) by { NoRegions(heap); }
    for i := 0 to |ops|
      invariant transport.Valid() && Table(heap, regions)
      invariant forall r :: r in regions ==> fresh(r)
      invariant heap.Total() == old(heap.Total()) + Maps(ops[..i]) && old(heap.freed) <= heap.freed
      invariant transport.Base() == RunOps(old(transport.Base()), MapReads(ops[..i]))
    {
      UsesOneMore(old(transport.Base()), ops[..i], ops[i]);
      assert ops[..i + 1] == ops[..i] + [ops[i]];
      regions := Use(heap, transport, regions, ops[i]);
    }
    assert ops[..|ops|] == ops;
    assert Distinct(regions) && Owned(heap, Elements(regions)) by { TableIs(heap, regions); }
    DestroyAll(heap, regions);
  }

  lemma NoMaps(d: DeviceState)
    ensures Maps([]) == 0 && RunOps(d, MapReads([])) == d
  {
  }

  lemma TableIs(heap: Allocator, regions: seq<MappedRegion>)
    requires Table(heap, regions)
    ensures Distinct(regions) && Owned(heap, Elements(regions))
  {
  }

  lemma NoRegions(heap: Allocator)
    requires heap.Valid() && heap.live == {}
    ensures Table(heap, [])
  {
  }
}
