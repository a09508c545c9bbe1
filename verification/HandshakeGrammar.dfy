/** The sequences of messages and ChangeCipherSpecs that make up a handshake: the figures of section 7.3 of
    RFC 5246 and section 3.1 of RFC 5077, for one side whose peer may send whatever it likes. */
module HandshakeGrammar {
  import opened Wrappers
  import opened Handshake
  import opened HandshakeFlow

  /** What may stand at a place. A Finished has to cover everything before it. */
  datatype Sample = Exactly(item: Item) | AnyHello | AnyTicket | AnyChain | NonEmptyChain | FinishedBy(server: bool)

  datatype Place = Empty | Must(sample: Sample) | May(sample: Sample)

  predicate Matches(sample: Sample, item: Item, before: seq<Item>) {
    match sample
    case Exactly(i) => item == i
    case AnyHello => item.Handshake? && item.m.ClientHello?
    case AnyTicket => item.Handshake? && item.m.NewSessionTicket?
    case AnyChain => item.Handshake? && item.m.Certificate?
    case NonEmptyChain => item.Handshake? && item.m.Certificate? && item.m.count > 0
    case FinishedBy(server) => item == Handshake(Finished(server, HashedAll(before)))
  }

  /** The items fill the first n places of the form. */
  ghost predicate Fills(form: nat -> Place, n: nat, items: seq<Item>)
    decreases n
  {
    if n == 0 then items == []
    else
      || (!form(n - 1).Must? && Fills(form, n - 1, items))
      || (!form(n - 1).Empty? && items != []
          && Matches(form(n - 1).sample, items[|items| - 1], items[..|items| - 1])
          && Fills(form, n - 1, items[..|items| - 1]))
  }

  /** Two forms that do not differ in the first n places. */
  ghost predicate Alike(form: nat -> Place, other: nat -> Place, n: nat) {
    forall k: nat :: k < n ==> form(k) == other(k)
  }

  lemma {:induction false} AlikeFills(form: nat -> Place, other: nat -> Place, n: nat, items: seq<Item>)
    requires Alike(form, other, n) && Fills(form, n, items)
    ensures Fills(other, n, items)
    decreases n
  {
    if n > 0 {
      if !form(n - 1).Must? && Fills(form, n - 1, items) {
        AlikeFills(form, other, n - 1, items);
      } else {
        AlikeFills(form, other, n - 1, items[..|items| - 1]);
      }
    }
  }

  lemma {:induction false} FillsOn(form: nat -> Place, other: nat -> Place, n: nat, items: seq<Item>, item: Item)
    requires Fills(form, n, items) && Alike(form, other, n)
    requires !other(n).Empty? && Matches(other(n).sample, item, items)
    ensures Fills(other, n + 1, items + [item])
    ensures HashedAll(items + [item]) == HashedAll(items) + Hashed(item)
  {
    AlikeFills(form, other, n, items);
    HashedOneMore(items, item);
    assert (items + [item])[..|items|] == items;
  }

  lemma {:induction false} FillsPast(form: nat -> Place, other: nat -> Place, n: nat, items: seq<Item>)
    requires Fills(form, n, items) && Alike(form, other, n) && !other(n).Must?
    ensures Fills(other, n + 1, items)
  {
    AlikeFills(form, other, n, items);
  }

  // ----- The two sides -----

  function MustIf(due: bool, m: Msg): Place {
    if due then Must(Exactly(Handshake(m))) else Empty
  }

  function MayIf(due: bool, m: Msg): Place {
    if due then May(Exactly(Handshake(m))) else Empty
  }

  /** What a resumption leaves of the handshake, from either side. */
  function ResumedForm(p: Params, n: nat): Place {
    match n
    case 0 => Must(AnyHello)
    case 1 => MustIf(true, ServerHello(p))
    case 2 => if p.ticket then Must(AnyTicket) else Empty
    case 3 => Must(Exactly(ChangeCipherSpec))
    case 4 => Must(FinishedBy(true))
    case 5 => Must(Exactly(ChangeCipherSpec))
    case 6 => MustIf(p.npn, NextProto)
    case 7 => MustIf(p.channelId, ChannelId)
    case 8 => Must(FinishedBy(false))
    case _ => Empty
  }

  /** The end of a full handshake, from either side. */
  function LastFlights(p: Params, n: nat): Place {
    match n
    case 10 => Must(Exactly(ChangeCipherSpec))
    case 11 => MustIf(p.npn, NextProto)
    case 12 => MustIf(p.channelId, ChannelId)
    case 13 => Must(FinishedBy(false))
    case 14 => if p.ticket then Must(AnyTicket) else Empty
    case 15 => Must(Exactly(ChangeCipherSpec))
    case 16 => Must(FinishedBy(true))
    case _ => Empty
  }

  /** What the client takes from a server and sends to it in a full handshake; `asked` says that the server
      asked for a certificate. */
  function ClientFullForm(p: Params, asked: bool, n: nat): Place {
    match n
    case 0 => Must(AnyHello)
    case 1 => MustIf(true, ServerHello(p))
    case 2 => if p.auth == CertificateAuth then Must(NonEmptyChain) else Empty
    case 3 => MayIf(p.status, CertificateStatus)
    case 4 => if p.kex == PskExchange then MayIf(true, ServerKeyExchange) else MustIf(p.kex == EcdheExchange, ServerKeyExchange)
    case 5 => MustIf(asked, CertificateRequest)
    case 6 => MustIf(true, ServerHelloDone)
    case 7 => if asked then Must(AnyChain) else Empty
    case 8 => MustIf(true, ClientKeyExchange)
    case 9 => MayIf(asked, CertificateVerify)
    case _ => LastFlights(p, n)
  }

  /** What the server sends to a client and takes from it in a full handshake; `chain` is how long a
      certificate chain it was sent, and `hint` says that it has a hint for a pre-shared key. */
  function ServerFullForm(p: Params, asked: bool, chain: nat, hint: bool, n: nat): Place {
    match n
    case 0 => Must(AnyHello)
    case 1 => MustIf(true, ServerHello(p))
    case 2 => MustIf(p.auth == CertificateAuth, Certificate(1))
    case 3 => MustIf(p.auth == CertificateAuth && p.status, CertificateStatus)
    case 4 => MustIf(p.kex == EcdheExchange || (p.auth == PskAuth && hint), ServerKeyExchange)
    case 5 => MustIf(asked, CertificateRequest)
    case 6 => MustIf(true, ServerHelloDone)
    case 7 => MustIf(asked, Certificate(chain))
    case 8 => MustIf(true, ClientKeyExchange)
    case 9 => MustIf(chain > 0, CertificateVerify)
    case _ => LastFlights(p, n)
  }

  // ----- What has passed -----

  /** The items since the last HelloVerifyRequest: a handshake with a cookie starts over there. */
  function SinceCookie(items: seq<Item>): seq<Item> {
    if items == [] || items[|items| - 1] == Handshake(HelloVerifyRequest) then []
    else SinceCookie(items[..|items| - 1]) + [items[|items| - 1]]
  }

  lemma {:induction false} SinceCookieAppends(items: seq<Item>, more: seq<Item>)
    requires Handshake(HelloVerifyRequest) !in more
    ensures SinceCookie(items + more) == SinceCookie(items) + more
    decreases |more|
  {
    if more == [] {
      assert items + more == items;
    } else {
      var front := more[..|more| - 1];
      SinceCookieAppends(items, front);
      assert (items + more)[..|items + more| - 1] == items + front;
      assert SinceCookie(items) + more == (SinceCookie(items) + front) + [more[|more| - 1]];
    }
  }

  lemma {:induction false} SinceCookieRestarts(items: seq<Item>, more: seq<Item>)
    requires Handshake(HelloVerifyRequest) !in more
    ensures SinceCookie(items + [Handshake(HelloVerifyRequest)] + more) == more
  {
    SinceCookieAppends(items + [Handshake(HelloVerifyRequest)], more);
  }

  /** What a handler call consumed and then sent. */
  function Passed(before: Io, head: Option<Item>, after: Io): seq<Item> {
    (if after.got > before.got && head.Some? then [head.value] else [])
    + (if |before.sent| <= |after.sent| then after.sent[|before.sent|..] else [])
  }

  lemma {:induction false} PassedOne(before: Io, head: Option<Item>, after: Io, item: Item)
    requires after.sent == before.sent + [item] && after.got == before.got
    ensures Passed(before, head, after) == [item]
  {
    assert after.sent[|before.sent|..] == [item];
  }

  /** What has passed since the last HelloVerifyRequest, after one more handler call. */
  function Onward(items: seq<Item>, passed: seq<Item>): seq<Item> {
    if passed != [] && passed[0] == Handshake(HelloVerifyRequest) then passed[1..] else items + passed
  }

  lemma {:induction false} OnwardIsSinceCookie(items: seq<Item>, passed: seq<Item>)
    requires passed != [] ==> Handshake(HelloVerifyRequest) !in passed[1..]
    ensures SinceCookie(items + passed) == Onward(SinceCookie(items), passed)
  {
    if passed != [] && passed[0] == Handshake(HelloVerifyRequest) {
      SinceCookieRestarts(items, passed[1..]);
      assert items + passed == items + [passed[0]] + passed[1..];
    } else {
      assert passed != [] ==> passed == [passed[0]] + passed[1..];
      SinceCookieAppends(items, passed);
    }
  }

  // ----- Several items in one handler call -----

  /** The items, and what was sent from an index on, fill n places and are what was hashed. */
  ghost predicate Adds(form: nat -> Place, n: nat, items: seq<Item>, from: nat, io: Io) {
    && from <= |io.sent| && Fills(form, n, items + io.sent[from..])
    && io.transcript == HashedAll(items + io.sent[from..])
    && Handshake(HelloVerifyRequest) !in io.sent[from..]
  }

  lemma {:induction false} AddsNothing(form: nat -> Place, n: nat, items: seq<Item>, io: Io)
    requires Fills(form, n, items) && io.transcript == HashedAll(items)
    ensures Adds(form, n, items, |io.sent|, io)
  {
    assert items + io.sent[|io.sent|..] == items;
  }

  lemma {:induction false} AddsItem(form: nat -> Place, n: nat, items: seq<Item>, from: nat, io: Io, item: Item, after: Io)
    requires Adds(form, n, items, from, io) && item != Handshake(HelloVerifyRequest)
    requires !form(n).Empty? && Matches(form(n).sample, item, items + io.sent[from..])
    requires after.sent == io.sent + [item] && after.transcript == io.transcript + Hashed(item)
    ensures Adds(form, n + 1, items, from, after)
  {
    FillsOn(form, form, n, items + io.sent[from..], item);
    assert after.sent[from..] == io.sent[from..] + [item];
    assert items + after.sent[from..] == (items + io.sent[from..]) + [item];
  }

  lemma {:induction false} AddsIf(form: nat -> Place, n: nat, items: seq<Item>, from: nat, io: Io, said: bool, m: Msg)
    requires Adds(form, n, items, from, io) && form(n) == MustIf(said, m) && m != HelloVerifyRequest
    ensures Adds(form, n + 1, items, from, io.SayIf(said, m))
  {
    if said {
      AddsItem(form, n, items, from, io, Handshake(m), io.Say(m));
    } else {
      FillsPast(form, form, n, items + io.sent[from..]);
    }
  }

  lemma {:induction false} AddsFinished(form: nat -> Place, n: nat, items: seq<Item>, from: nat, io: Io, server: bool)
    requires Adds(form, n, items, from, io) && form(n) == Must(FinishedBy(server))
    ensures Adds(form, n + 1, items, from, io.Say(Finished(server, io.transcript)))
  {
    var m := Finished(server, io.transcript);
    AddsItem(form, n, items, from, io, Handshake(m), io.Say(m));
  }
}
