/** Records from a sealing writer to an opening reader, over a network that loses, reorders, repeats and forges
    them: what the replay window makes of numbers that are never used twice. */
module FreshRecords {
  import opened Wrappers
  import opened RecordLayer
  import ReplayWindow
  import S = RecordSealing

  /** The epochs and numbers of the records the writer has sealed. */
  type Numbers = seq<(int, nat)>

  predicate Fit(numbers: Numbers) {
    forall i :: 0 <= i < |numbers| ==> 0 <= numbers[i].0 < TWO_16 && numbers[i].1 < TWO_48
  }

  /** What the reader sees: record i of the writer, something the AEAD does not accept, or a cipher change. */
  datatype Delivery =
    | Carry(i: nat)
    | Forge(epoch: nat, number: nat)
    | Switch

  predicate Possible(numbers: Numbers, ds: Run<Delivery>) {
    ds.Then? ==> Possible(numbers, ds.past) && (ds.last.Carry? ==> ds.last.i < |numbers|)
  }

  function EventOf(numbers: Numbers, d: Delivery): ReadEvent
    requires Fit(numbers) && (d.Carry? ==> d.i < |numbers|)
  {
    match d
    case Carry(i) => Arrive(numbers[i].0, numbers[i].1, true)
    case Forge(epoch, number) => Arrive(epoch, number, false)
    case Switch => ChangeReadCipher
  }

  ghost function Reading(numbers: Numbers, ds: Run<Delivery>): Run<ReadEvent>
    requires Fit(numbers) && Possible(numbers, ds)
  {
    match ds
    case Start => Start
    case Then(past, d) => Then(Reading(numbers, past), EventOf(numbers, d))
  }

  ghost function Reader(numbers: Numbers, ds: Run<Delivery>): ReadState
    requires Fit(numbers) && Possible(numbers, ds)
  {
    ReadRun(Reading(numbers, ds))
  }

  /** The writer's records the reader has accepted, in order. */
  ghost function Taken(numbers: Numbers, ds: Run<Delivery>): seq<nat>
    requires Fit(numbers) && Possible(numbers, ds)
  {
    match ds
    case Start => []
    case Then(past, d) =>
      Taken(numbers, past) +
      if d.Carry? && Accepts(Reader(numbers, past), EventOf(numbers, d)) then [d.i] else []
  }

  /** A record of the same epoch, 64 or more further on, was accepted already. */
  ghost predicate Stale(numbers: Numbers, taken: seq<nat>, i: nat)
    requires i < |numbers|
  {
    exists j :: j in taken && j < |numbers| && numbers[j].0 == numbers[i].0
      && numbers[j].1 >= numbers[i].1 + ReplayWindow.WINDOW_SIZE
  }

  /** Nothing but the writer's records was accepted, and those of the current epoch are what the window knows. */
  ghost predicate WindowKnows(numbers: Numbers, taken: seq<nat>, st: ReadState)
    requires Fit(numbers)
  {
    && (forall i :: i in taken ==> i < |numbers| && numbers[i].0 <= st.era)
    && (forall i :: i in taken && numbers[i].0 == st.era ==> Joint(numbers[i].0, numbers[i].1) in st.received)
    && (forall x :: x in st.received ==>
          exists i :: i in taken && numbers[i].0 == st.era && Joint(numbers[i].0, numbers[i].1) == x)
  }

  lemma {:induction false} WindowIsTaken(numbers: Numbers, ds: Run<Delivery>)
    requires Fit(numbers) && Possible(numbers, ds) && Reader(numbers, ds).era < TWO_16
    ensures WindowKnows(numbers, Taken(numbers, ds), Reader(numbers, ds))
  {
    if ds.Then? {
      WindowIsTaken(numbers, ds.past);
      WindowStep(numbers, Taken(numbers, ds.past), Reader(numbers, ds.past), ds.last);
    }
  }

  lemma {:induction false} WindowStep(numbers: Numbers, taken: seq<nat>, st: ReadState, d: Delivery)
    requires Fit(numbers) && (d.Carry? ==> d.i < |numbers|) && WindowKnows(numbers, taken, st) && st.era < TWO_16
    ensures var e := EventOf(numbers, d);
      WindowKnows(numbers, taken + if d.Carry? && Accepts(st, e) then [d.i] else [], ReadStep(st, e))
  {
    if d.Carry? && Accepts(st, EventOf(numbers, d)) {
      assert d.i in taken + [d.i] && forall i :: i in taken ==> i in taken + [d.i];
    }
  }

  lemma {:induction false} SameJoint(numbers: Numbers, i: nat, j: nat)
    requires Fit(numbers) && i < |numbers| && j < |numbers| && numbers[i].0 == numbers[j].0
    ensures Joint(numbers[i].0, numbers[i].1) == Joint(numbers[j].0, numbers[j].1) <==> numbers[i] == numbers[j]
    ensures Joint(numbers[j].0, numbers[j].1) >= Joint(numbers[i].0, numbers[i].1) + ReplayWindow.WINDOW_SIZE <==>
            numbers[j].1 >= numbers[i].1 + ReplayWindow.WINDOW_SIZE
  {
  }

  /** In the current epoch the window refuses a record exactly when it was accepted before, or is stale. */
  lemma {:induction false} RefusedIsExact(numbers: Numbers, taken: seq<nat>, st: ReadState, i: nat)
    requires Fit(numbers) && NoDup(numbers) && WindowKnows(numbers, taken, st) && i < |numbers| && numbers[i].0 == st.era
    ensures ReplayWindow.Refused(st.received, Joint(numbers[i].0, numbers[i].1)) <==>
            i in taken || Stale(numbers, taken, i)
  {
    var s := Joint(numbers[i].0, numbers[i].1);
    if s in st.received {
      var j :| j in taken && numbers[j].0 == st.era && Joint(numbers[j].0, numbers[j].1) == s;
      SameJoint(numbers, i, j);
    }
    if r :| r in st.received && r >= s + ReplayWindow.WINDOW_SIZE {
      var j :| j in taken && numbers[j].0 == st.era && Joint(numbers[j].0, numbers[j].1) == r;
      SameJoint(numbers, i, j);
    }
    if Stale(numbers, taken, i) {
      var j :| j in taken && j < |numbers| && numbers[j].0 == numbers[i].0
        && numbers[j].1 >= numbers[i].1 + ReplayWindow.WINDOW_SIZE;
      SameJoint(numbers, i, j);
      assert Joint(numbers[j].0, numbers[j].1) in st.received;
    }
  }

  /** Exactly which arrivals are accepted, wherever in a run: those of the current epoch that were not accepted
      before and that no accepted record of their epoch has left 64 or more behind. */
  lemma {:induction false} ArrivalIsExact(numbers: Numbers, ds: Run<Delivery>, i: nat)
    requires Fit(numbers) && NoDup(numbers) && Possible(numbers, ds) && Reader(numbers, ds).era < TWO_16 && i < |numbers|
    ensures Accepts(Reader(numbers, ds), EventOf(numbers, Carry(i))) <==>
            && numbers[i].0 == Reader(numbers, ds).era && i !in Taken(numbers, ds)
            && !Stale(numbers, Taken(numbers, ds), i)
  {
    WindowIsTaken(numbers, ds);
    if numbers[i].0 == Reader(numbers, ds).era {
      RefusedIsExact(numbers, Taken(numbers, ds), Reader(numbers, ds), i);
    }
  }

  /** No record is accepted twice. */
  lemma {:induction false} TakenOnce(numbers: Numbers, ds: Run<Delivery>)
    requires Fit(numbers) && NoDup(numbers) && Possible(numbers, ds) && Reader(numbers, ds).era < TWO_16
    ensures NoDup(Taken(numbers, ds))
  {
    if ds.Then? {
      TakenOnce(numbers, ds.past);
      if ds.last.Carry? {
        ArrivalIsExact(numbers, ds.past, ds.last.i);
      }
    }
  }

  predicate Arrived(ds: Run<Delivery>, i: nat) {
    ds.Then? && (Arrived(ds.past, i) || ds.last == Carry(i))
  }

  lemma {:induction false} TakenHasArrived(numbers: Numbers, ds: Run<Delivery>, i: nat)
    requires Fit(numbers) && Possible(numbers, ds) && i in Taken(numbers, ds)
    ensures Arrived(ds, i)
  {
    if i in Taken(numbers, ds.past) {
      TakenHasArrived(numbers, ds.past, i);
    }
  }

  // ----- The numbers of a writer -----

  /** What a writer has numbered fits the bytes it goes into. */
  lemma {:induction false} SealedFit(w: Run<S.WriteEvent>)
    requires S.AllowedRun(w) && S.NoOverflow(w) && S.WriteRun(w).era < TWO_16
    ensures Fit(S.SealedNumbers(w))
  {
    if w.Then? {
      SealedFit(w.past);
      S.NumbersAreUnique(w.past);
    }
  }

  /** The first arrival of a sealed record, be it an original or a retransmission, is accepted if its epoch is
      the current one and no accepted record of that epoch has left it 64 or more behind. */
  lemma {:induction false} FirstArrivalIsAccepted(w: Run<S.WriteEvent>, ds: Run<Delivery>, i: nat)
    requires S.AllowedRun(w) && S.NoOverflow(w) && S.WriteRun(w).era < TWO_16 && Fit(S.SealedNumbers(w))
    requires Possible(S.SealedNumbers(w), ds) && Reader(S.SealedNumbers(w), ds).era < TWO_16
    requires i < |S.SealedNumbers(w)| && !Arrived(ds, i)
    ensures var numbers := S.SealedNumbers(w);
      Accepts(Reader(numbers, ds), EventOf(numbers, Carry(i))) <==>
      numbers[i].0 == Reader(numbers, ds).era && !Stale(numbers, Taken(numbers, ds), i)
  {
    S.NumbersAreUnique(w);
    ArrivalIsExact(S.SealedNumbers(w), ds, i);
    if i in Taken(S.SealedNumbers(w), ds) {
      TakenHasArrived(S.SealedNumbers(w), ds, i);
    }
  }
}
