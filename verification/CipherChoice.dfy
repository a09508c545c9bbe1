/** How a TLS 1.2 server picks the cipher suite. */
module CipherChoice {
  import opened Wrappers
  import opened Bytes

  datatype Cipher = Cipher(id: Uint16, minVersion: Uint16, maxVersion: Uint16, mkey: bv32, auth: bv32)

  /** What the connection allows: the negotiated version, and the key exchanges and signatures the
      server is configured for. */
  datatype Config = Config(version: Uint16, maskK: bv32, maskA: bv32)

  predicate Supported(c: Cipher, cfg: Config) {
    c.minVersion <= cfg.version <= c.maxVersion && c.mkey & cfg.maskK != 0 && c.auth & cfg.maskA != 0
  }

  // ----- The client's list -----

  /** The known cipher suites of the list in order, or None when the list has an odd length. */
  function ClientList(list: seq<Byte>, known: map<int, Cipher>): Option<seq<Cipher>> {
    if |list| == 0 then Some([])
    else if |list| == 1 then None
    else
      match ClientList(list[2..], known)
      case None => None
      case Some(rest) =>
        var suite := U16(list[..2]);
        Some((if suite in known then [known[suite]] else []) + rest)
  }

  lemma {:induction false} ClientListOdd(list: seq<Byte>, known: map<int, Cipher>)
    ensures ClientList(list, known).None? <==> |list| % 2 == 1
  {
    if |list| >= 2 {
      ClientListOdd(list[2..], known);
    }
  }

  /** The list is read two bytes at a time from the front, and suites that are not known are passed over. */
  lemma {:induction false} ClientListJoins(a: seq<Byte>, b: seq<Byte>, known: map<int, Cipher>)
    requires |a| % 2 == 0
    ensures ClientList(a + b, known) ==
      match (ClientList(a, known), ClientList(b, known))
      case (Some(one), Some(two)) => Some(one + two)
      case _ => None
    ensures |a| == 2 ==>
      var suite := a[0] as int * 0x100 + a[1] as int;
      ClientList(a, known) == Some(if suite in known then [known[suite]] else [])
  {
    if a == [] {
      assert a + b == b;
      if ClientList(b, known).Some? {
        assert [] + ClientList(b, known).value == ClientList(b, known).value;
      }
    } else {
      ClientListJoins(a[2..], b, known);
      assert (a + b)[2..] == a[2..] + b && (a + b)[..2] == a[..2];
      var suite := U16(a[..2]);
      var first := if suite in known then [known[suite]] else [];
      if ClientList(a[2..], known).Some? && ClientList(b, known).Some? {
        JoinsInOrder(first, ClientList(a[2..], known).value, ClientList(b, known).value);
      }
      assert |a| == 2 ==> a[2..] == [] && first + [] == first;
    }
  }

  lemma {:induction false} JoinsInOrder(a: seq<Cipher>, b: seq<Cipher>, c: seq<Cipher>)
    ensures a + (b + c) == (a + b) + c
  {
  }

  method ParseClientList(list: seq<Byte>, known: map<int, Cipher>) returns (ciphers: Option<seq<Cipher>>)
    ensures ciphers == ClientList(list, known)
    ensures ciphers.None? <==> |list| % 2 == 1
  {
    ClientListOdd(list, known);
    var stack: seq<Cipher>, rest := [], list;
    assert forall more: seq<Cipher> :: [] + more == more;
    while |rest| > 0
      invariant match ClientList(rest, known)
        case None => ClientList(list, known).None?
        case Some(more) => ClientList(list, known) == Some(stack + more)
      decreases |rest|
    {
      if |rest| < 2 {
        return None;
      }
      var suite := U16(rest[..2]);
      ghost var before := stack;
      if suite in known {
        stack := stack + [known[suite]];
      }
      rest := rest[2..];
      assert forall more: seq<Cipher> ::
        before + ((if suite in known then [known[suite]] else []) + more) == stack + more;
    }
    assert stack + [] == stack;
    return Some(stack);
  }

  // ----- The choice -----

  /** Where a cipher first stands in a list. */
  function IndexOf(list: seq<Cipher>, c: Cipher): (i: nat)
    requires c in list
    ensures i < |list| && list[i] == c && forall j :: 0 <= j < i ==> list[j] != c
  {
    if list[0] == c then 0 else 1 + IndexOf(list[1..], c)
  }

  method Find(list: seq<Cipher>, c: Cipher) returns (found: bool, index: nat)
    ensures found <==> c in list
    ensures found ==> index == IndexOf(list, c)
  {
    index := 0;
    while index < |list|
      invariant index <= |list| && forall j :: 0 <= j < index ==> list[j] != c
    {
      if list[index] == c {
        return true, index;
      }
      index := index + 1;
    }
    return false, 0;
  }

  /** Entry i does not end its equal-preference group. Without flags every entry is a group of its own. */
  predicate InGroup(flags: Option<seq<bool>>, i: nat)
    requires flags.Some? ==> i < |flags.value|
  {
    flags.Some? && flags.value[i]
  }

  predicate FlagsFit(prio: seq<Cipher>, flags: Option<seq<bool>>) {
    flags.Some? ==> |flags.value| == |prio|
  }

  /** How many groups end before entry i. */
  function Group(flags: Option<seq<bool>>, i: nat): nat
    requires flags.Some? ==> i <= |flags.value|
  {
    if i == 0 then 0 else Group(flags, i - 1) + if InGroup(flags, i - 1) then 0 else 1
  }

  lemma {:induction false} GroupsGrow(flags: Option<seq<bool>>, i: nat, j: nat)
    requires i <= j && (flags.Some? ==> j <= |flags.value|)
    ensures Group(flags, i) <= Group(flags, j)
    ensures Group(flags, i) == Group(flags, j) <==> forall k :: i <= k < j ==> InGroup(flags, k)
  {
    if i < j {
      GroupsGrow(flags, i, j - 1);
    }
  }

  /** The group of entry i has an end. */
  predicate Closed(prio: seq<Cipher>, flags: Option<seq<bool>>, i: nat)
    requires FlagsFit(prio, flags)
  {
    exists j :: i <= j < |prio| && !InGroup(flags, j)
  }

  predicate Eligible(prio: seq<Cipher>, allow: seq<Cipher>, cfg: Config, i: nat) {
    i < |prio| && Supported(prio[i], cfg) && prio[i] in allow
  }

  /** Entry i comes before entry j: its group is earlier, or it stands earlier in the other list. */
  predicate NoWorse(prio: seq<Cipher>, flags: Option<seq<bool>>, allow: seq<Cipher>, i: nat, j: nat)
    requires FlagsFit(prio, flags) && i < |prio| && j < |prio| && prio[i] in allow && prio[j] in allow
  {
    || Group(flags, i) < Group(flags, j)
    || (Group(flags, i) == Group(flags, j) && IndexOf(allow, prio[i]) <= IndexOf(allow, prio[j]))
  }

  /** The eligible entry of a closed group that comes before all others. */
  ghost predicate Best(prio: seq<Cipher>, flags: Option<seq<bool>>, allow: seq<Cipher>, cfg: Config, i: nat)
    requires FlagsFit(prio, flags)
  {
    && Eligible(prio, allow, cfg, i) && Closed(prio, flags, i)
    && forall j :: Eligible(prio, allow, cfg, j) && Closed(prio, flags, j) ==> NoWorse(prio, flags, allow, i, j)
  }

  /** The best choice is one cipher, however often it is listed. */
  lemma {:induction false} BestIsUnique(prio: seq<Cipher>, flags: Option<seq<bool>>, allow: seq<Cipher>, cfg: Config,
                                        i: nat, j: nat)
    requires FlagsFit(prio, flags) && Best(prio, flags, allow, cfg, i) && Best(prio, flags, allow, cfg, j)
    ensures prio[i] == prio[j]
  {
    assert NoWorse(prio, flags, allow, i, j) && NoWorse(prio, flags, allow, j, i);
  }

  /** What the loop knows at entry i: earlier groups had nothing eligible, and `best` is the entry of the
      current group with the least index in the other list. */
  ghost predicate Searched(prio: seq<Cipher>, flags: Option<seq<bool>>, allow: seq<Cipher>, cfg: Config, i: nat,
                           best: Option<nat>)
    requires FlagsFit(prio, flags)
  {
    && i <= |prio|
    && (forall j :: 0 <= j < i && Eligible(prio, allow, cfg, j) ==>
          best.Some? && Group(flags, j) == Group(flags, i) && best.value < i && prio[best.value] in allow
          && IndexOf(allow, prio[best.value]) <= IndexOf(allow, prio[j]))
    && (best.Some? ==> best.value < i && Eligible(prio, allow, cfg, best.value))
  }

  /** Entry i seen as well: `best` is the entry of its group with the least index so far. */
  ghost predicate SearchedIncluding(prio: seq<Cipher>, flags: Option<seq<bool>>, allow: seq<Cipher>, cfg: Config,
                                    i: nat, best: Option<nat>)
    requires FlagsFit(prio, flags)
  {
    && i < |prio|
    && (forall j :: 0 <= j <= i && Eligible(prio, allow, cfg, j) ==>
          best.Some? && Group(flags, j) == Group(flags, i) && best.value <= i && prio[best.value] in allow
          && IndexOf(allow, prio[best.value]) <= IndexOf(allow, prio[j]))
    && (best.Some? ==> best.value <= i && Eligible(prio, allow, cfg, best.value))
  }

  /** Reaching the end of a group with something eligible in it settles the choice. */
  lemma {:induction false} GroupEnds(prio: seq<Cipher>, flags: Option<seq<bool>>, allow: seq<Cipher>, cfg: Config,
                                     i: nat, best: nat)
    requires FlagsFit(prio, flags) && i < |prio| && !InGroup(flags, i)
    requires SearchedIncluding(prio, flags, allow, cfg, i, Some(best))
    ensures Best(prio, flags, allow, cfg, best)
  {
    forall j | Eligible(prio, allow, cfg, j)
      ensures NoWorse(prio, flags, allow, best, j)
    {
      if i < j {
        GroupsGrow(flags, i, j);
        assert !InGroup(flags, i);
      }
    }
  }

  /** Inside a group, or without anything eligible so far, the search goes on. */
  lemma {:induction false} SearchGoesOn(prio: seq<Cipher>, flags: Option<seq<bool>>, allow: seq<Cipher>, cfg: Config,
                                        i: nat, best: Option<nat>)
    requires FlagsFit(prio, flags) && SearchedIncluding(prio, flags, allow, cfg, i, best)
    requires best.None? || InGroup(flags, i)
    ensures Searched(prio, flags, allow, cfg, i + 1, best)
  {
  }

  lemma {:induction false} NothingClosed(prio: seq<Cipher>, flags: Option<seq<bool>>, allow: seq<Cipher>, cfg: Config,
                                         best: Option<nat>)
    requires FlagsFit(prio, flags) && Searched(prio, flags, allow, cfg, |prio|, best)
    ensures forall j :: 0 <= j < |prio| && Eligible(prio, allow, cfg, j) ==> !Closed(prio, flags, j)
  {
    forall j | 0 <= j < |prio| && Eligible(prio, allow, cfg, j)
      ensures !Closed(prio, flags, j)
    {
      GroupsGrow(flags, j, |prio|);
    }
  }

  /** Entry i is seen and becomes the best of its group so far. */
  lemma {:induction false} SeeBetter(prio: seq<Cipher>, flags: Option<seq<bool>>, allow: seq<Cipher>, cfg: Config,
                                     i: nat, best: Option<nat>)
    requires FlagsFit(prio, flags) && Eligible(prio, allow, cfg, i) && Searched(prio, flags, allow, cfg, i, best)
    requires best.None? || IndexOf(allow, prio[i]) <= IndexOf(allow, prio[best.value])
    ensures SearchedIncluding(prio, flags, allow, cfg, i, Some(i))
  {
  }

  /** Entry i is seen and does not change the best of its group. */
  lemma {:induction false} SeeOther(prio: seq<Cipher>, flags: Option<seq<bool>>, allow: seq<Cipher>, cfg: Config,
                                    i: nat, best: Option<nat>)
    requires FlagsFit(prio, flags) && i < |prio| && Searched(prio, flags, allow, cfg, i, best)
    requires Eligible(prio, allow, cfg, i) ==> best.Some? && IndexOf(allow, prio[best.value]) <= IndexOf(allow, prio[i])
    ensures SearchedIncluding(prio, flags, allow, cfg, i, best)
  {
  }

  /** What the loop remembers of `best` is its index in the other list, or -1. */
  predicate Remembers(prio: seq<Cipher>, flags: Option<seq<bool>>, allow: seq<Cipher>, groupMin: int, best: Option<nat>) {
    && (best.Some? ==> best.value < |prio| && flags.Some? && prio[best.value] in allow)
    && groupMin == if best.None? then -1 else IndexOf(allow, prio[best.value])
  }

  /** Looks at entry i: what is the best of its group now, and is the choice made already? */
  method LookAt(prio: seq<Cipher>, flags: Option<seq<bool>>, allow: seq<Cipher>, cfg: Config, i: nat, groupMin: int,
                ghost best: Option<nat>)
    returns (min: int, choice: Option<Cipher>, ghost now: Option<nat>)
    requires FlagsFit(prio, flags) && i < |prio|
    requires Searched(prio, flags, allow, cfg, i, best) && Remembers(prio, flags, allow, groupMin, best)
    ensures SearchedIncluding(prio, flags, allow, cfg, i, now)
    ensures choice.Some? <==> Eligible(prio, allow, cfg, i) && !InGroup(flags, i)
    ensures choice.Some? ==> now.Some? && choice.value == prio[now.value]
    ensures choice.None? ==> Remembers(prio, flags, allow, min, now)
    ensures choice.None? && !InGroup(flags, i) ==> now == best
  {
    var found, index := Find(allow, prio[i]);
    if !Supported(prio[i], cfg) || !found {
      SeeOther(prio, flags, allow, cfg, i, best);
      return groupMin, None, best;
    }
    if InGroup(flags, i) {
      if groupMin == -1 || groupMin > index {
        SeeBetter(prio, flags, allow, cfg, i, best);
        return index, None, Some(i);
      }
      SeeOther(prio, flags, allow, cfg, i, best);
      return groupMin, None, best;
    }
    if groupMin != -1 && groupMin < index {
      SeeOther(prio, flags, allow, cfg, i, best);
      return groupMin, Some(allow[groupMin]), best;
    }
    SeeBetter(prio, flags, allow, cfg, i, best);
    return groupMin, Some(allow[index]), Some(i);
  }

  /** The end of a group with something eligible in it makes the choice. */
  lemma {:induction false} Settles(prio: seq<Cipher>, flags: Option<seq<bool>>, allow: seq<Cipher>, cfg: Config,
                                   i: nat, best: nat)
    requires FlagsFit(prio, flags) && i < |prio| && !InGroup(flags, i)
    requires SearchedIncluding(prio, flags, allow, cfg, i, Some(best))
    ensures best < |prio| && Best(prio, flags, allow, cfg, best)
    ensures exists j :: 0 <= j < |prio| && Eligible(prio, allow, cfg, j) && Closed(prio, flags, j)
  {
    GroupEnds(prio, flags, allow, cfg, i, best);
    assert Eligible(prio, allow, cfg, best) && Closed(prio, flags, best);
  }

  /** One pass over the list in order of priority. The order of `allow` counts within a group. */
  method ChooseFrom(prio: seq<Cipher>, flags: Option<seq<bool>>, allow: seq<Cipher>, cfg: Config)
    returns (choice: Option<Cipher>)
    requires FlagsFit(prio, flags)
    ensures choice.Some? ==> exists i :: 0 <= i < |prio| && Best(prio, flags, allow, cfg, i) && choice.value == prio[i]
    ensures choice.None? <==> forall i :: 0 <= i < |prio| && Eligible(prio, allow, cfg, i) ==> !Closed(prio, flags, i)
  {
    var groupMin: int := -1;
    ghost var best: Option<nat> := None;
    var i := 0;
    while i < |prio|
      invariant Searched(prio, flags, allow, cfg, i, best) && Remembers(prio, flags, allow, groupMin, best)
    {
      groupMin, choice, best := LookAt(prio, flags, allow, cfg, i, groupMin, best);
      if choice.Some? {
        Settles(prio, flags, allow, cfg, i, best.value);
        return;
      }
      if flags.Some? && !flags.value[i] && groupMin != -1 {
        Settles(prio, flags, allow, cfg, i, best.value);
        return Some(allow[groupMin]);
      }
      SearchGoesOn(prio, flags, allow, cfg, i, best);
      i := i + 1;
    }
    NothingClosed(prio, flags, allow, cfg, best);
    return None;
  }

  datatype ServerPreference = ServerPreference(ciphers: seq<Cipher>, inGroup: seq<bool>) {
    /** One flag per cipher, and the last group ends. */
    predicate WellFormed() {
      |inGroup| == |ciphers| && (ciphers != [] ==> !inGroup[|ciphers| - 1])
    }
  }

  ghost predicate FirstOfClient(client: seq<Cipher>, server: seq<Cipher>, cfg: Config, c: Cipher) {
    exists i ::
      && 0 <= i < |client| && Eligible(client, server, cfg, i) && client[i] == c
      && forall j :: 0 <= j < i ==> !Eligible(client, server, cfg, j)
  }

  /** Both lists have the cipher, the version is one of its own, and the server has the key exchange and the
      signature for it. */
  predicate Usable(client: seq<Cipher>, server: seq<Cipher>, cfg: Config, c: Cipher) {
    && c in client && c in server && c.minVersion <= cfg.version && cfg.version <= c.maxVersion
    && c.mkey & cfg.maskK != 0 && c.auth & cfg.maskA != 0
  }

  /** An eligible entry is a usable cipher, and every usable cipher has such an entry. */
  lemma {:induction false} EligibleIsUsable(prio: seq<Cipher>, allow: seq<Cipher>, cfg: Config)
    ensures forall i: nat :: Eligible(prio, allow, cfg, i) ==> Usable(prio, allow, cfg, prio[i])
    ensures (forall i :: 0 <= i < |prio| ==> !Eligible(prio, allow, cfg, i)) ==> forall c :: !Usable(prio, allow, cfg, c)
  {
    forall c | Usable(prio, allow, cfg, c)
      ensures c in prio && Eligible(prio, allow, cfg, IndexOf(prio, c))
    {
    }
  }

  /** Under server preference the cipher whose group comes first, and among its group the one the client
      lists first; otherwise the first one of the client's list. None exactly when no cipher is eligible. */
  method ChooseCipher(clientHello: seq<Byte>, known: map<int, Cipher>, pref: ServerPreference, serverPreference: bool,
                      cfg: Config)
    returns (choice: Option<Cipher>)
    requires pref.WellFormed()
    ensures match ClientList(clientHello, known)
      case None => choice.None?
      case Some(client) =>
        && (choice.None? <==> forall i :: 0 <= i < |client| ==> !Eligible(client, pref.ciphers, cfg, i))
        && (choice.Some? && !serverPreference ==> FirstOfClient(client, pref.ciphers, cfg, choice.value))
        && (choice.Some? && serverPreference ==>
              exists i :: 0 <= i < |pref.ciphers| && Best(pref.ciphers, Some(pref.inGroup), client, cfg, i)
                  && choice.value == pref.ciphers[i])
        && (choice.Some? ==> Usable(client, pref.ciphers, cfg, choice.value))
        && (choice.None? ==> forall c :: !Usable(client, pref.ciphers, cfg, c))
  {
    var clientPref := ParseClientList(clientHello, known);
    if clientPref.None? {
      return None;
    }
    var client := clientPref.value;
    EligibleIsUsable(client, pref.ciphers, cfg);
    if serverPreference {
      choice := ChooseFrom(pref.ciphers, Some(pref.inGroup), client, cfg);
      forall i | 0 <= i < |pref.ciphers|
        ensures Closed(pref.ciphers, Some(pref.inGroup), i)
      {
        assert !InGroup(Some(pref.inGroup), |pref.ciphers| - 1);
      }
      SameEligible(client, pref.ciphers, cfg);
      EligibleIsUsable(pref.ciphers, client, cfg);
    } else {
      choice := ChooseFrom(client, None, pref.ciphers, cfg);
      forall i | 0 <= i < |client|
        ensures Closed(client, None, i)
      {
        assert !InGroup(None, i);
      }
      if choice.Some? {
        ghost var i :| 0 <= i < |client| && Best(client, None, pref.ciphers, cfg, i) && choice.value == client[i];
        BestIsFirst(client, pref.ciphers, cfg, i);
      }
    }
  }

  lemma {:induction false} SameEligible(client: seq<Cipher>, server: seq<Cipher>, cfg: Config)
    ensures (exists i :: 0 <= i < |client| && Eligible(client, server, cfg, i))
      <==> (exists i :: 0 <= i < |server| && Eligible(server, client, cfg, i))
  {
    if i :| 0 <= i < |client| && Eligible(client, server, cfg, i) {
      assert Eligible(server, client, cfg, IndexOf(server, client[i]));
    }
    if i :| 0 <= i < |server| && Eligible(server, client, cfg, i) {
      assert Eligible(client, server, cfg, IndexOf(client, server[i]));
    }
  }

  /** Without groups the best entry is the first eligible one. */
  lemma {:induction false} BestIsFirst(client: seq<Cipher>, server: seq<Cipher>, cfg: Config, i: nat)
    requires Best(client, None, server, cfg, i)
    ensures forall j :: 0 <= j < i ==> !Eligible(client, server, cfg, j)
  {
    forall j | 0 <= j < i
      ensures !Eligible(client, server, cfg, j)
    {
      GroupsGrow(None, j, i);
      assert !InGroup(None, j);
      if Eligible(client, server, cfg, j) {
        assert Closed(client, None, j);
      }
    }
  }

  /** The group of an entry is closed if and only if some flag from it on is clear; when all that is eligible
      stands in a group that no entry ends, nothing eligible is closed, which is when ChooseFrom finds nothing.
      Lists made of cipher strings never end so: a bracket that is not closed is an error there. */
  lemma {:induction false} OpenGroupIsLost(prio: seq<Cipher>, flags: seq<bool>, allow: seq<Cipher>, cfg: Config, i: nat)
    requires |flags| == |prio| && Eligible(prio, allow, cfg, i)
    ensures Closed(prio, Some(flags), i) <==> exists j :: i <= j < |prio| && !flags[j]
    ensures (forall j :: i <= j < |prio| ==> flags[j]) && (forall j :: 0 <= j < i ==> !Eligible(prio, allow, cfg, j))
      ==> forall j :: 0 <= j < |prio| && Eligible(prio, allow, cfg, j) ==> !Closed(prio, Some(flags), j)
  {
    if j :| i <= j < |prio| && !flags[j] {
      assert !InGroup(Some(flags), j);
    }
    if forall j :: i <= j < |prio| ==> flags[j] {
      forall j | i <= j < |prio|
        ensures InGroup(Some(flags), j)
      {
        assert flags[j];
      }
    }
  }
}
