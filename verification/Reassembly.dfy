/**
 The collector against a reference: for any interleaving, reordering and duplication of the fragments of many packets,
 mixed with arbitrary fragments under other ids, it returns a packet exactly when the indices that arrived since that
 packet's last completion are all there, and what it returns is the packet.
 */
module Reassembly {
  import opened Outcomes
  import opened Octets
  import opened Finite
  import opened Chunking
  import opened Fragments
  import opened PacketCodec

  /** The packets under way, by fragment id. */
  type Originals = map<Bytes, Bytes>

  function Total(o: Originals, id: Bytes): nat
    requires id in o
  {
    |Chunks(o[id], FRAGMENT_SIZE)|
  }

  /** A fragment that carries the id of a packet under way is one of that packet's fragments. */
  ghost predicate Genuine(o: Originals, f: Fragment) {
    f.id in o ==> f.index < Total(o, f.id) && f == FragmentAt(o[f.id], f.id, f.index)
  }

  datatype Arrival = Arrival(fragment: Fragment, sender: string)

  ghost predicate AllGenuine(o: Originals, xs: seq<Arrival>) {
    forall i :: 0 <= i < |xs| ==> Genuine(o, xs[i].fragment)
  }

  /** The collector after some arrivals. */
  function Collect(xs: seq<Arrival>): Table
    decreases |xs|
  {
    if xs == [] then Table(map[], map[])
    else var x := xs[|xs| - 1]; Add(Collect(xs[..|xs| - 1]), x.fragment, x.sender).0
  }

  /** What the collector returns on the last of some arrivals. */
  function LastResult(xs: seq<Arrival>): Option<(Bytes, string)>
    requires xs != []
  {
    var x := xs[|xs| - 1];
    Add(Collect(xs[..|xs| - 1]), x.fragment, x.sender).1
  }

  // ----- The reference -----

  /** The indices of an id seen since its last completion: a completing arrival empties the set. */
  ghost function Outstanding(o: Originals, xs: seq<Arrival>, id: Bytes): set<int>
    requires id in o
    decreases |xs|
  {
    if xs == [] then {}
    else
      var f, before := xs[|xs| - 1].fragment, Outstanding(o, xs[..|xs| - 1], id);
      if f.id != id then before
      else if before + {f.index} == Indices(Total(o, id)) then {}
      else before + {f.index}
  }

  ghost predicate Completes(o: Originals, xs: seq<Arrival>)
    requires xs != []
  {
    var f := xs[|xs| - 1].fragment;
    f.id in o && Outstanding(o, xs[..|xs| - 1], f.id) + {f.index} == Indices(Total(o, f.id))
  }

  /** Who sent the first fragment of an id since its last completion. */
  ghost function Opener(o: Originals, xs: seq<Arrival>, id: Bytes): string
    requires id in o
    decreases |xs|
  {
    if xs == [] then "Unknown"
    else
      var x, before := xs[|xs| - 1], xs[..|xs| - 1];
      if x.fragment.id == id && Outstanding(o, before, id) == {} then x.sender else Opener(o, before, id)
  }

  // ----- Proof -----

  /** The parts held for an id are genuine pieces of its packet. */
  ghost predicate Pieces(packet: Bytes, parts: map<int, Bytes>) {
    var cs := Chunks(packet, FRAGMENT_SIZE);
    forall i :: i in parts ==> 0 <= i < |cs| && parts[i] == cs[i]
  }

  lemma {:induction false} AssembleJoins(cs: seq<Bytes>, parts: map<int, Bytes>, n: nat)
    requires n <= |cs| && forall i :: 0 <= i < n ==> i in parts && parts[i] == cs[i]
    ensures Assemble(parts, n) == Some(Join(cs[..n]))
    decreases n
  {
    if n > 0 {
      AssembleJoins(cs, parts, n - 1);
      assert cs[..n] == cs[..n - 1] + [cs[n - 1]];
      JoinLast(cs[..n - 1], cs[n - 1]);
    }
  }

  lemma {:induction false} JoinLast(pieces: seq<Bytes>, last: Bytes)
    ensures Join(pieces + [last]) == Join(pieces) + last
    decreases |pieces|
  {
    if pieces == [] {
      assert (pieces + [last])[1..] == [];
    } else {
      assert (pieces + [last])[1..] == pieces[1..] + [last];
      JoinLast(pieces[1..], last);
    }
  }

  /** Counting parts is enough: genuine parts are complete exactly when their number is the total. */
  lemma CountingSuffices(packet: Bytes, parts: map<int, Bytes>)
    requires Pieces(packet, parts)
    ensures
      var total := |Chunks(packet, FRAGMENT_SIZE)|;
      && (|parts| == total <==> parts.Keys == Indices(total))
      && (|parts| == total ==> Assemble(parts, total) == Some(packet))
  {
    var cs := Chunks(packet, FRAGMENT_SIZE);
    SubsetSize(parts.Keys, Indices(|cs|));
    assert |parts| == |parts.Keys|;
    if |parts| == |cs| {
      AssembleJoins(cs, parts, |cs|);
      ChunksRebuild(packet, FRAGMENT_SIZE);
      assert cs[..|cs|] == cs;
    }
  }

  /** The collector holds, for every packet under way, exactly the pieces the reference calls outstanding. */
  ghost predicate Tracks(o: Originals, xs: seq<Arrival>, t: Table) {
    forall id :: id in o ==> Pieces(o[id], PartsOf(t, id)) && PartsOf(t, id).Keys == Outstanding(o, xs, id)
  }

  /** One arrival for a packet under way. */
  lemma AddTracks(o: Originals, before: seq<Arrival>, t: Table, x: Arrival)
    requires x.fragment.id in o && Genuine(o, x.fragment) && Tracks(o, before, t)
    ensures
      var f, xs := x.fragment, before + [x];
      var (t', r) := Add(t, f, x.sender);
      && Pieces(o[f.id], PartsOf(t', f.id)) && PartsOf(t', f.id).Keys == Outstanding(o, xs, f.id)
      && (r.Some? <==> Outstanding(o, before, f.id) + {f.index} == Indices(Total(o, f.id)))
      && (r.Some? ==> r.value.0 == o[f.id])
  {
    var f, xs := x.fragment, before + [x];
    assert xs[..|xs| - 1] == before;
    var parts := PartsOf(t, f.id)[f.index := f.data];
    assert parts.Keys == Outstanding(o, before, f.id) + {f.index};
    CountingSuffices(o[f.id], parts);
  }

  function FirstParts(parts: map<int, Bytes>, n: nat): seq<Bytes>
    requires forall i :: 0 <= i < n ==> i in parts
  {
    seq(n, i requires 0 <= i < n => parts[i])
  }

  /**
   Any fragment, forged ones included: a value comes back exactly when there are as many parts as the fragment says and
   all the first indices are among them, and it is those parts joined; then the id is forgotten, and otherwise the part is
   kept.
   */
  lemma AddAnyFragment(t: Table, f: Fragment, sender: string)
    ensures
      var parts := PartsOf(t, f.id)[f.index := f.data];
      var (t', r) := Add(t, f, sender);
      && (r.Some? <==> |parts| == f.total && forall i :: 0 <= i < f.total ==> i in parts)
      && (r.Some? ==> r.value.0 == Join(FirstParts(parts, f.total)) && f.id !in t'.parts && f.id !in t'.senders)
      && (r.None? ==> PartsOf(t', f.id) == parts && f.id in t'.parts)
  {
    var parts := PartsOf(t, f.id)[f.index := f.data];
    if i :| 0 <= i < f.total && i !in parts {
      AssembleStops(parts, i, f.total);
    } else {
      var cs := FirstParts(parts, f.total);
      AssembleJoins(cs, parts, f.total);
      assert cs[..f.total] == cs;
    }
  }

  /** Fragments of one packet never disturb what is held for another. */
  lemma OthersUntouched(t: Table, f: Fragment, sender: string, id: Bytes)
    requires id != f.id
    ensures PartsOf(Add(t, f, sender).0, id) == PartsOf(t, id)
  {
  }

  lemma StepTracks(o: Originals, before: seq<Arrival>, t: Table, x: Arrival)
    requires Genuine(o, x.fragment) && Tracks(o, before, t)
    ensures Tracks(o, before + [x], Add(t, x.fragment, x.sender).0)
  {
    var xs, t' := before + [x], Add(t, x.fragment, x.sender).0;
    assert xs[..|xs| - 1] == before && xs[|xs| - 1] == x;
    forall id | id in o
      ensures Pieces(o[id], PartsOf(t', id)) && PartsOf(t', id).Keys == Outstanding(o, xs, id)
    {
      if id == x.fragment.id {
        AddTracks(o, before, t, x);
      } else {
        OthersUntouched(t, x.fragment, x.sender, id);
      }
    }
  }

  lemma {:induction false} CollectorTracks(o: Originals, xs: seq<Arrival>)
    requires AllGenuine(o, xs)
    ensures Tracks(o, xs, Collect(xs))
    decreases |xs|
  {
    if xs != [] {
      var before, x := xs[..|xs| - 1], xs[|xs| - 1];
      CollectorTracks(o, before);
      StepTracks(o, before, Collect(before), x);
      assert before + [x] == xs;
    }
  }

  /**
   Reassembly refines the original: after any arrivals, the collector returns a value on an arrival for a packet under
   way exactly when that arrival completes it, and then returns the packet.
   */
  lemma ReassemblyCorrect(o: Originals, xs: seq<Arrival>)
    requires xs != [] && AllGenuine(o, xs) && xs[|xs| - 1].fragment.id in o
    ensures LastResult(xs).Some? <==> Completes(o, xs)
    ensures LastResult(xs).Some? ==> LastResult(xs).value.0 == o[xs[|xs| - 1].fragment.id]
  {
    var before, x := xs[..|xs| - 1], xs[|xs| - 1];
    CollectorTracks(o, before);
    AddTracks(o, before, Collect(before), x);
  }

  /** The collector remembers the opener of every id of which it holds parts. */
  ghost predicate Remembers(o: Originals, xs: seq<Arrival>, t: Table) {
    forall id :: id in o ==> RemembersOne(o, xs, t, id)
  }

  /** One id: its parts are not an empty map, and its sender is the opener. */
  ghost predicate RemembersOne(o: Originals, xs: seq<Arrival>, t: Table, id: Bytes)
    requires id in o
  {
    && (id in t.parts <==> PartsOf(t, id) != map[])
    && (id in t.parts ==> id in t.senders && t.senders[id] == Opener(o, xs, id))
  }

  lemma OpenerStep(o: Originals, before: seq<Arrival>, x: Arrival, id: Bytes)
    requires id in o
    ensures Opener(o, before + [x], id) ==
            if x.fragment.id == id && Outstanding(o, before, id) == {} then x.sender else Opener(o, before, id)
  {
    var xs := before + [x];
    assert xs[..|xs| - 1] == before && xs[|xs| - 1] == x;
  }

  lemma OtherRemembered(o: Originals, before: seq<Arrival>, t: Table, x: Arrival, id: Bytes)
    requires id in o && id != x.fragment.id && RemembersOne(o, before, t, id)
    ensures RemembersOne(o, before + [x], Add(t, x.fragment, x.sender).0, id)
  {
    OpenerStep(o, before, x, id);
  }

  lemma OwnRemembered(o: Originals, before: seq<Arrival>, t: Table, x: Arrival)
    requires x.fragment.id in o && RemembersOne(o, before, t, x.fragment.id)
    requires PartsOf(t, x.fragment.id).Keys == Outstanding(o, before, x.fragment.id)
    ensures RemembersOne(o, before + [x], Add(t, x.fragment, x.sender).0, x.fragment.id)
  {
    var id := x.fragment.id;
    OpenerStep(o, before, x, id);
    assert x.fragment.index in PartsOf(t, id)[x.fragment.index := x.fragment.data];
    assert PartsOf(t, id) == map[] <==> PartsOf(t, id).Keys == {};
  }

  lemma {:induction false} CollectorRemembers(o: Originals, xs: seq<Arrival>)
    requires AllGenuine(o, xs)
    ensures Remembers(o, xs, Collect(xs))
    decreases |xs|
  {
    if xs != [] {
      var before, x := xs[..|xs| - 1], xs[|xs| - 1];
      CollectorRemembers(o, before);
      CollectorTracks(o, before);
      assert before + [x] == xs;
      forall id | id in o
        ensures RemembersOne(o, xs, Collect(xs), id)
      {
        assert RemembersOne(o, before, Collect(before), id);
        if id == x.fragment.id {
          OwnRemembered(o, before, Collect(before), x);
        } else {
          OtherRemembered(o, before, Collect(before), x, id);
        }
      }
    }
  }

  lemma OpenerReturned(o: Originals, before: seq<Arrival>, t: Table, x: Arrival)
    requires x.fragment.id in o && RemembersOne(o, before, t, x.fragment.id)
    requires PartsOf(t, x.fragment.id).Keys == Outstanding(o, before, x.fragment.id)
    ensures
      var r := Add(t, x.fragment, x.sender).1;
      r.Some? ==> r.value.1 == Opener(o, before + [x], x.fragment.id)
  {
    var id := x.fragment.id;
    OpenerStep(o, before, x, id);
    assert PartsOf(t, id) == map[] <==> PartsOf(t, id).Keys == {};
  }

  /** A completed packet is attributed to whoever sent its first fragment since the last completion. */
  lemma SenderIsOpener(o: Originals, before: seq<Arrival>, x: Arrival)
    requires AllGenuine(o, before) && x.fragment.id in o
    ensures
      var r := Add(Collect(before), x.fragment, x.sender).1;
      r.Some? ==> r.value.1 == Opener(o, before + [x], x.fragment.id)
  {
    HoldsOne(o, before, x.fragment.id);
    OpenerReturned(o, before, Collect(before), x);
  }

  lemma HoldsOne(o: Originals, xs: seq<Arrival>, id: Bytes)
    requires AllGenuine(o, xs) && id in o
    ensures PartsOf(Collect(xs), id).Keys == Outstanding(o, xs, id) && RemembersOne(o, xs, Collect(xs), id)
  {
    CollectorTracks(o, xs);
    CollectorRemembers(o, xs);
  }

  /** What the receiver reads off the wire, after any relays the TTL allows, is genuine. */
  lemma WireFragmentsGenuine(o: Originals, id: Bytes, sender: Bytes, clock: nat -> Millis, noise: nat -> nat -> byte,
                             i: nat, k: nat, inflate: Bytes -> Option<Bytes>)
    requires id in o && |id| == 8 && i < Total(o, id) < U16_LIMIT && k < DEFAULT_TTL
    ensures
      var raw := WireFragment(o[id], id, sender, clock, noise, i);
      && raw.Some? && |raw.value| > 2
      && var got := AfterRelays(raw.value, k);
      && got.Some? && Parse(got.value, inflate).Ok?
      && var f := ReadPayload(Parse(got.value, inflate).value.payload);
      && f.Some? && f.value.id == id && f.value.index == i && Genuine(o, f.value)
  {
    FragmentOnTheWire(o[id], id, sender, clock, noise, i, k, inflate);
  }

  /** End to end: a created packet that was fragmented and reassembled parses to the draft it was created from. */
  lemma FragmentedPacketArrives(o: Originals, xs: seq<Arrival>, d: Draft, millis: nat, filler: nat -> byte,
                                inflate: Bytes -> Option<Bytes>)
    requires xs != [] && AllGenuine(o, xs) && Completes(o, xs)
    requires KnownType(d.kind) && Create(d, millis, filler) == Some(o[xs[|xs| - 1].fragment.id])
    ensures LastResult(xs).Some? && Parse(LastResult(xs).value.0, inflate) == Ok(Expected(d, DEFAULT_TTL))
  {
    ReassemblyCorrect(o, xs);
    ParseCreated(d, millis, Padding(|Unpadded(d, millis)|, filler), inflate);
  }

  // ----- The collector as the daemon mutates it -----

  lemma LastArrival(before: seq<Arrival>, x: Arrival)
    ensures
      var xs := before + [x];
      (Collect(xs), LastResult(xs)) == Add(Collect(before), x.fragment, x.sender)
  {
    var xs := before + [x];
    assert xs[..|xs| - 1] == before && xs[|xs| - 1] == x;
  }

  /** The answer to the last arrival is right for every assignment of packets to ids that fits the arrivals. */
  ghost predicate RightAnswer(o: Originals, xs: seq<Arrival>, r: Option<(Bytes, string)>)
    requires xs != []
  {
    var id := xs[|xs| - 1].fragment.id;
    AllGenuine(o, xs) && id in o ==> (r.Some? <==> Completes(o, xs)) && (r.Some? ==> r.value.0 == o[id])
  }

  lemma AnswersRight(xs: seq<Arrival>, r: Option<(Bytes, string)>)
    requires xs != [] && r == LastResult(xs)
    ensures forall o :: RightAnswer(o, xs, r)
  {
    forall o
      ensures RightAnswer(o, xs, r)
    {
      if AllGenuine(o, xs) && xs[|xs| - 1].fragment.id in o {
        ReassemblyCorrect(o, xs);
      }
    }
  }

  /** `arrivals` is its history: every promise is about all the packets those arrivals can have come from. */
  class FragmentCollector {
    var fragments: map<Bytes, map<int, Bytes>>
    var metadata: map<Bytes, string>
    ghost var arrivals: seq<Arrival>

    ghost predicate Valid()
      reads this
    {
      Table(fragments, metadata) == Collect(arrivals)
    }

    constructor ()
      ensures Valid() && arrivals == []
    {
      fragments, metadata, arrivals := map[], map[], [];
    }

    /** Returns a packet exactly when this arrival completes it, for every assignment of packets to ids that fits. */
    method AddFragment(f: Fragment, sender: string) returns (r: Option<(Bytes, string)>)
      requires Valid()
      modifies this
      ensures Valid() && arrivals == old(arrivals) + [Arrival(f, sender)]
      ensures forall o :: RightAnswer(o, arrivals, r)
    {
      r := Receive(f, sender);
      LastArrival(arrivals, Arrival(f, sender));
      arrivals := arrivals + [Arrival(f, sender)];
      AnswersRight(arrivals, r);
    }

    method Receive(f: Fragment, sender: string) returns (r: Option<(Bytes, string)>)
      modifies this`fragments, this`metadata
      ensures (Table(fragments, metadata), r) == Add(old(Table(fragments, metadata)), f, sender)
    {
      StorePart(f, sender);
      r := FinishFragment(f.id, f.total);
    }

    method StorePart(f: Fragment, sender: string)
      modifies this`fragments, this`metadata
      ensures f.id in fragments && Table(fragments, metadata) == Put(old(Table(fragments, metadata)), f, sender)
    {
      if f.id !in fragments {
        fragments := fragments[f.id := map[]];
        metadata := metadata[f.id := sender];
      }
      fragments := fragments[f.id := fragments[f.id][f.index := f.data]];
    }

    method FinishFragment(id: Bytes, total: nat) returns (r: Option<(Bytes, string)>)
      requires id in fragments
      modifies this`fragments, this`metadata
      ensures (Table(fragments, metadata), r) == Finish(old(Table(fragments, metadata)), id, total)
    {
      if |fragments[id]| != total {
        return None;
      }
      var whole := Reassemble(fragments[id], total);
      if whole.None? {
        return None;
      }
      r := Some((whole.value, if id in metadata then metadata[id] else "Unknown"));
      fragments, metadata := fragments - {id}, metadata - {id};
    }
  }
}
