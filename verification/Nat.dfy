/** The address translation table: what its operations do, over whole runs. */
module Nat {
  import opened Arith

  datatype Kind = Icmp | Tcp

  /** A connection through a mapping. */
  datatype Connection = Connection(ipExt: nat, portExt: nat, state: TcpState, lastUpdated: int)

  datatype TcpState = Established | Transitory | Other

  /** A mapping; born counts the mappings of its kind made before it. */
  datatype Entry = Entry(kind: Kind, ipInt: nat, auxInt: nat, auxExt: nat, lastUpdated: int, conns: seq<Connection>,
                         born: nat)

  /** The newest mapping comes first; made counts the mappings of a kind made so far. */
  datatype Table = Table(entries: seq<Entry>, madeIcmp: nat, madeTcp: nat)
  {
    function Made(kind: Kind): nat
    {
      if kind == Icmp then madeIcmp else madeTcp
    }
  }

  datatype Timeouts = Timeouts(icmpQuery: int, tcpEstablished: int, tcpTransitory: int)

  const MIN_TCP_PORT: nat := 1024
  const USHRT_MAX: nat := 65535

  function FirstId(kind: Kind): nat
  {
    if kind == Icmp then 0 else MIN_TCP_PORT
  }

  /** How many ids of a kind there are. */
  function Period(kind: Kind): nat
  {
    USHRT_MAX - FirstId(kind)
  }

  /** The id that the counter gives to mapping number n of a kind. */
  function IdOf(kind: Kind, n: nat): (id: nat)
    ensures FirstId(kind) <= id < USHRT_MAX
  {
    FirstId(kind) + n % Period(kind)
  }

  /** The counter moves on by one, and from the end to the beginning. */
  function NextId(kind: Kind, id: nat): nat
  {
    if id + 1 == USHRT_MAX then FirstId(kind) else id + 1
  }

  lemma IdOfNext(kind: Kind, n: nat)
    ensures IdOf(kind, n + 1) == NextId(kind, IdOf(kind, n))
  {
  }

  /** The ids of TCP mappings are the ports from 1024 to 65534, those of ICMP mappings the numbers from 0 to 65534. */
  lemma FirstAndLastIds()
    ensures IdOf(Tcp, 0) == 1024 && IdOf(Tcp, 64510) == 65534 && IdOf(Tcp, 64511) == 1024
    ensures IdOf(Icmp, 0) == 0 && IdOf(Icmp, 65534) == 65534 && IdOf(Icmp, 65535) == 0
  {
  }

  lemma SameId(kind: Kind, m: nat, n: nat)
    requires m <= n
    ensures IdOf(kind, m) == IdOf(kind, n) <==> (n - m) % Period(kind) == 0
  {
  }

  // ---------------------------------------------------------------------------------------------
  // The operations
  // ---------------------------------------------------------------------------------------------

  predicate MatchesInternal(e: Entry, kind: Kind, ip: nat, aux: nat)
  {
    e.kind == kind && e.ipInt == ip && e.auxInt == aux
  }

  predicate MatchesExternal(e: Entry, kind: Kind, aux: nat)
  {
    e.kind == kind && e.auxExt == aux
  }

  /** The place of the first mapping from n on that has the internal key, or how many there are. */
  function FindInternal(es: seq<Entry>, kind: Kind, ip: nat, aux: nat, n: nat): (i: nat)
    requires n <= |es|
    ensures n <= i <= |es|
    ensures i < |es| ==> MatchesInternal(es[i], kind, ip, aux)
    ensures forall j :: n <= j < i ==> !MatchesInternal(es[j], kind, ip, aux)
    decreases |es| - n
  {
    if n == |es| || MatchesInternal(es[n], kind, ip, aux) then n else FindInternal(es, kind, ip, aux, n + 1)
  }

  function FindExternal(es: seq<Entry>, kind: Kind, aux: nat, n: nat): (i: nat)
    requires n <= |es|
    ensures n <= i <= |es|
    ensures i < |es| ==> MatchesExternal(es[i], kind, aux)
    ensures forall j :: n <= j < i ==> !MatchesExternal(es[j], kind, aux)
    decreases |es| - n
  {
    if n == |es| || MatchesExternal(es[n], kind, aux) then n else FindExternal(es, kind, aux, n + 1)
  }

  function Touch(es: seq<Entry>, i: nat, now: int): (r: seq<Entry>)
    requires i <= |es|
    ensures |r| == |es|
  {
    if i < |es| then es[i := es[i].(lastUpdated := now)] else es
  }

  /** A mapping for the key: the one there is, touched, or a new one in front with the next id. */
  function Insert(t: Table, kind: Kind, ip: nat, aux: nat, now: int): Table
  {
    var i := FindInternal(t.entries, kind, ip, aux, 0);
    if i < |t.entries| then t.(entries := Touch(t.entries, i, now))
    else
      var e := Entry(kind, ip, aux, IdOf(kind, t.Made(kind)), now, [], t.Made(kind));
      Table([e] + t.entries, t.madeIcmp + if kind == Icmp then 1 else 0, t.madeTcp + if kind == Tcp then 1 else 0)
  }

  /** What an outgoing packet's source becomes: the id of its mapping. */
  function Outbound(t: Table, kind: Kind, ip: nat, aux: nat, now: int): (Table, nat)
  {
    var t' := Insert(t, kind, ip, aux, now);
    var i := FindInternal(t'.entries, kind, ip, aux, 0);
    (t', if i < |t'.entries| then t'.entries[i].auxExt else 0)
  }

  datatype Reply = NoMapping | Rewritten(ip: nat, aux: nat)

  /** What an incoming packet's destination becomes. */
  function Inbound(t: Table, kind: Kind, id: nat, now: int): (Table, Reply)
  {
    var i := FindExternal(t.entries, kind, id, 0);
    (t.(entries := Touch(t.entries, i, now)),
     if i < |t.entries| then Rewritten(t.entries[i].ipInt, t.entries[i].auxInt) else NoMapping)
  }

  predicate ShouldTimeout(to: Timeouts, c: Connection, now: int)
  {
    match c.state
    case Established => now - c.lastUpdated >= to.tcpEstablished
    case Transitory => now - c.lastUpdated >= to.tcpTransitory
    case Other => false
  }

  function LiveConns(to: Timeouts, cs: seq<Connection>, now: int): seq<Connection>
  {
    if cs == [] then []
    else (if ShouldTimeout(to, cs[0], now) then [] else [cs[0]]) + LiveConns(to, cs[1..], now)
  }

  /** A mapping after its connections were looked at; connections of an ICMP mapping are not. */
  function Aged(to: Timeouts, e: Entry, now: int): Entry
  {
    if e.kind == Tcp then e.(conns := LiveConns(to, e.conns, now)) else e
  }

  predicate Stale(to: Timeouts, e: Entry, now: int)
  {
    if e.kind == Icmp then now - e.lastUpdated >= to.icmpQuery else Aged(to, e, now).conns == []
  }

  /** The mappings that stay, in their order. */
  function Fresh(to: Timeouts, es: seq<Entry>, now: int): seq<Entry>
  {
    if es == [] then []
    else (if Stale(to, es[0], now) then [] else [Aged(to, es[0], now)]) + Fresh(to, es[1..], now)
  }

  function Sweep(t: Table, to: Timeouts, now: int): Table
  {
    t.(entries := Fresh(to, t.entries, now))
  }

  /** A packet of a connection through mapping i leaves other connections behind. */
  function SetConns(t: Table, i: nat, cs: seq<Connection>): Table
  {
    if i < |t.entries| then t.(entries := t.entries[i := t.entries[i].(conns := cs)]) else t
  }

  // ---------------------------------------------------------------------------------------------
  // Whole runs
  // ---------------------------------------------------------------------------------------------

  datatype Event =
    | Out(kind: Kind, ip: nat, aux: nat, now: int)
    | In(kind: Kind, id: nat, now: int)
    | Tick(to: Timeouts, now: int)
    | Conns(i: nat, cs: seq<Connection>)

  function Next(t: Table, e: Event): Table
  {
    match e
    case Out(kind, ip, aux, now) => Outbound(t, kind, ip, aux, now).0
    case In(kind, id, now) => Inbound(t, kind, id, now).0
    case Tick(to, now) => Sweep(t, to, now)
    case Conns(i, cs) => SetConns(t, i, cs)
  }

  function Run(t: Table, es: seq<Event>): Table
  {
    if es == [] then t else Next(Run(t, es[..|es| - 1]), es[|es| - 1])
  }

  const EMPTY := Table([], 0, 0)

  /** The id is that of the mapping's number. */
  predicate Numbered(t: Table, e: Entry)
  {
    e.born < t.Made(e.kind) && e.auxExt == IdOf(e.kind, e.born)
  }

  /** e stands before f: of one kind, it is newer and has another internal key. */
  predicate Ordered(e: Entry, f: Entry)
  {
    e.kind == f.kind ==> e.born > f.born && !(e.ipInt == f.ipInt && e.auxInt == f.auxInt)
  }

  predicate TableInv(t: Table)
  {
    && (forall i :: 0 <= i < |t.entries| ==> Numbered(t, t.entries[i]))
    && (forall i, j :: 0 <= i < j < |t.entries| ==> Ordered(t.entries[i], t.entries[j]))
  }

  /** Apart from times and connections, g is e. */
  predicate SameMapping(e: Entry, g: Entry)
  {
    e.kind == g.kind && e.ipInt == g.ipInt && e.auxInt == g.auxInt && e.auxExt == g.auxExt && e.born == g.born
  }

  /** The mappings of t' are those of t, in order, some of them gone. */
  ghost predicate Thinned(es: seq<Entry>, gs: seq<Entry>, at: seq<nat>)
  {
    && |at| == |gs|
    && (forall i :: 0 <= i < |gs| ==> at[i] < |es| && SameMapping(es[at[i]], gs[i]))
    && (forall i, j :: 0 <= i < j < |gs| ==> at[i] < at[j])
  }

  lemma {:induction false} FreshThins(to: Timeouts, es: seq<Entry>, now: int) returns (at: seq<nat>)
    ensures Thinned(es, Fresh(to, es, now), at)
  {
    if es == [] {
      at := [];
    } else {
      var rest := FreshThins(to, es[1..], now);
      at := ThinnedBelow(es, Fresh(to, es[1..], now), rest);
      if !Stale(to, es[0], now) {
        ThinnedFirst(es, Aged(to, es[0], now), Fresh(to, es[1..], now), at);
        at := [0] + at;
      }
    }
  }

  /** The first entry left out. */
  lemma ThinnedBelow(es: seq<Entry>, gs: seq<Entry>, rest: seq<nat>) returns (at: seq<nat>)
    requires es != [] && Thinned(es[1..], gs, rest)
    ensures Thinned(es, gs, at) && forall i :: 0 <= i < |at| ==> at[i] > 0
  {
    at := seq(|rest|, i requires 0 <= i < |rest| => rest[i] + 1);
  }

  lemma ThinnedFirst(es: seq<Entry>, g: Entry, gs: seq<Entry>, at: seq<nat>)
    requires es != [] && SameMapping(es[0], g) && Thinned(es, gs, at) && forall i :: 0 <= i < |at| ==> at[i] > 0
    ensures Thinned(es, [g] + gs, [0] + at)
  {
  }

  lemma ThinnedKeeps(t: Table, gs: seq<Entry>, at: seq<nat>)
    requires TableInv(t) && Thinned(t.entries, gs, at)
    ensures TableInv(t.(entries := gs))
  {
    var t' := t.(entries := gs);
    forall i | 0 <= i < |gs|
      ensures Numbered(t', gs[i])
    {
      assert Numbered(t, t.entries[at[i]]);
    }
    forall i, j | 0 <= i < j < |gs|
      ensures Ordered(gs[i], gs[j])
    {
      assert Ordered(t.entries[at[i]], t.entries[at[j]]);
    }
  }

  /** One entry changed in its times or connections. */
  lemma ChangedKeeps(t: Table, i: nat, g: Entry)
    requires TableInv(t) && i < |t.entries| && SameMapping(t.entries[i], g)
    ensures TableInv(t.(entries := t.entries[i := g]))
  {
    var at: seq<nat> := seq(|t.entries|, j requires 0 <= j < |t.entries| => j);
    ThinnedKeeps(t, t.entries[i := g], at);
  }

  lemma InsertKeeps(t: Table, kind: Kind, ip: nat, aux: nat, now: int)
    requires TableInv(t)
    ensures TableInv(Insert(t, kind, ip, aux, now))
  {
    var i := FindInternal(t.entries, kind, ip, aux, 0);
    if i < |t.entries| {
      ChangedKeeps(t, i, t.entries[i].(lastUpdated := now));
    } else {
      var t' := Insert(t, kind, ip, aux, now);
      forall j | 0 <= j < |t'.entries|
        ensures Numbered(t', t'.entries[j])
      {
        if j > 0 { assert Numbered(t, t.entries[j - 1]); }
      }
      forall j, k | 0 <= j < k < |t'.entries|
        ensures Ordered(t'.entries[j], t'.entries[k])
      {
        assert Numbered(t, t.entries[k - 1]) && !MatchesInternal(t.entries[k - 1], kind, ip, aux);
        if j > 0 { assert Ordered(t.entries[j - 1], t.entries[k - 1]); }
      }
    }
  }

  lemma NextKeeps(t: Table, e: Event)
    requires TableInv(t)
    ensures TableInv(Next(t, e))
  {
    match e
    case Out(kind, ip, aux, now) => InsertKeeps(t, kind, ip, aux, now);
    case In(kind, id, now) =>
      var i := FindExternal(t.entries, kind, id, 0);
      if i < |t.entries| { ChangedKeeps(t, i, t.entries[i].(lastUpdated := now)); }
    case Tick(to, now) =>
      var at := FreshThins(to, t.entries, now);
      ThinnedKeeps(t, Fresh(to, t.entries, now), at);
    case Conns(i, cs) =>
      if i < |t.entries| { ChangedKeeps(t, i, t.entries[i].(conns := cs)); }
  }

  lemma {:induction false} RunKeeps(es: seq<Event>)
    ensures TableInv(Run(EMPTY, es))
  {
    if es != [] {
      RunKeeps(es[..|es| - 1]);
      NextKeeps(Run(EMPTY, es[..|es| - 1]), es[|es| - 1]);
    }
  }

  /** In every run, a packet for the id of mapping i is rewritten for mapping i exactly when no newer mapping of its
      kind came a whole number of id periods later. */
  lemma InboundExact(es: seq<Event>, i: nat)
    requires i < |Run(EMPTY, es).entries|
    ensures var t := Run(EMPTY, es); var e := t.entries[i];
      FindExternal(t.entries, e.kind, e.auxExt, 0) == i <==>
        forall j :: 0 <= j < i && t.entries[j].kind == e.kind ==> (t.entries[j].born - e.born) % Period(e.kind) != 0
  {
    RunKeeps(es);
    var t := Run(EMPTY, es);
    var e := t.entries[i];
    var k := FindExternal(t.entries, e.kind, e.auxExt, 0);
    assert Numbered(t, e) && MatchesExternal(e, e.kind, e.auxExt);
    forall j | 0 <= j < i && t.entries[j].kind == e.kind
      ensures MatchesExternal(t.entries[j], e.kind, e.auxExt) <==> (t.entries[j].born - e.born) % Period(e.kind) == 0
    {
      assert Ordered(t.entries[j], e) && Numbered(t, t.entries[j]);
      SameId(e.kind, e.born, t.entries[j].born);
    }
  }

  /** How long a connection may be idle; one in neither state is never too old. */
  predicate Alive(to: Timeouts, c: Connection, now: int)
  {
    && (c.state == Established ==> now < c.lastUpdated + to.tcpEstablished)
    && (c.state == Transitory ==> now < c.lastUpdated + to.tcpTransitory)
  }

  /** An ICMP mapping was used lately, a TCP mapping has a connection that was. */
  predicate InUse(to: Timeouts, e: Entry, now: int)
  {
    if e.kind == Icmp then now < e.lastUpdated + to.icmpQuery
    else exists i :: 0 <= i < |e.conns| && Alive(to, e.conns[i], now)
  }

  lemma {:induction false} LiveAre(to: Timeouts, cs: seq<Connection>, now: int)
    ensures forall c :: c in LiveConns(to, cs, now) <==> c in cs && Alive(to, c, now)
  {
    if cs != [] { LiveAre(to, cs[1..], now); }
  }

  lemma InUseIsKept(to: Timeouts, e: Entry, now: int)
    ensures Stale(to, e, now) <==> !InUse(to, e, now)
  {
    LiveAre(to, e.conns, now);
    var live := LiveConns(to, e.conns, now);
    if live != [] { assert live[0] in e.conns; }
  }

  /** The sweep keeps exactly the mappings in use. */
  lemma {:induction false} FreshAre(to: Timeouts, es: seq<Entry>, now: int, g: Entry)
    ensures g in Fresh(to, es, now) <==> exists i :: 0 <= i < |es| && InUse(to, es[i], now) && g == Aged(to, es[i], now)
  {
    if es != [] {
      FreshAre(to, es[1..], now, g);
      InUseIsKept(to, es[0], now);
    }
  }

  /** After a sweep a packet for an id finds no mapping exactly when no mapping with that id was in use. */
  lemma SweepExact(t: Table, to: Timeouts, now: int, kind: Kind, id: nat, later: int)
    ensures Inbound(Sweep(t, to, now), kind, id, later).1 == NoMapping <==>
      forall i :: 0 <= i < |t.entries| && MatchesExternal(t.entries[i], kind, id) ==> !InUse(to, t.entries[i], now)
  {
    var gs := Fresh(to, t.entries, now);
    var k := FindExternal(gs, kind, id, 0);
    if k < |gs| {
      FreshAre(to, t.entries, now, gs[k]);
    } else {
      forall i | 0 <= i < |t.entries| && MatchesExternal(t.entries[i], kind, id)
        ensures !InUse(to, t.entries[i], now)
      {
        FreshAre(to, t.entries, now, Aged(to, t.entries[i], now));
      }
    }
  }

  /** The live mappings of a kind are among the last ones made, as many as there are ids. */
  predicate Recent(t: Table, kind: Kind)
  {
    forall j :: 0 <= j < |t.entries| && t.entries[j].kind == kind ==> t.Made(kind) - t.entries[j].born <= Period(kind)
  }

  /** While that is so, every packet that comes back is rewritten to where its mapping came from. */
  lemma ReplyComesBack(es: seq<Event>, kind: Kind, i: nat, now: int)
    requires i < |Run(EMPTY, es).entries| && Run(EMPTY, es).entries[i].kind == kind && Recent(Run(EMPTY, es), kind)
    ensures var t := Run(EMPTY, es); var e := t.entries[i];
      Inbound(t, kind, e.auxExt, now).1 == Rewritten(e.ipInt, e.auxInt)
  {
    RunKeeps(es);
    var t := Run(EMPTY, es);
    var e := t.entries[i];
    assert Numbered(t, e);
    forall j | 0 <= j < i && t.entries[j].kind == e.kind
      ensures (t.entries[j].born - e.born) % Period(e.kind) != 0
    {
      assert Ordered(t.entries[j], e) && Numbered(t, t.entries[j]);
      Apart(t.entries[j].born - e.born, Period(kind));
    }
    InboundExact(es, i);
  }

  lemma Apart(d: int, p: nat)
    requires 0 < d < p
    ensures d % p != 0
  {
    DivModUnique(0, p, d);
  }

  /** A mapping made before stays the mapping it was. */
  ghost predicate Descends(t: Table, u: Table)
  {
    && (forall kind: Kind :: t.Made(kind) <= u.Made(kind))
    && forall g :: g in u.entries && g.born < t.Made(g.kind) ==> exists e :: e in t.entries && SameMapping(e, g)
  }

  lemma DescendsThinned(t: Table, gs: seq<Entry>, at: seq<nat>)
    requires Thinned(t.entries, gs, at)
    ensures Descends(t, t.(entries := gs))
  {
    forall g | g in gs
      ensures exists e :: e in t.entries && SameMapping(e, g)
    {
      var i: nat :| i < |gs| && gs[i] == g;
      assert t.entries[at[i]] in t.entries;
    }
  }

  lemma DescendsChanged(t: Table, i: nat, g: Entry)
    requires i < |t.entries| && SameMapping(t.entries[i], g)
    ensures Descends(t, t.(entries := t.entries[i := g]))
  {
    var at: seq<nat> := seq(|t.entries|, j requires 0 <= j < |t.entries| => j);
    DescendsThinned(t, t.entries[i := g], at);
  }

  lemma NextDescends(t: Table, e: Event)
    requires TableInv(t)
    ensures Descends(t, Next(t, e))
  {
    match e
    case Out(kind, ip, aux, now) =>
      var i := FindInternal(t.entries, kind, ip, aux, 0);
      if i < |t.entries| {
        DescendsChanged(t, i, t.entries[i].(lastUpdated := now));
      } else {
        forall g | g in Next(t, e).entries && g.born < t.Made(g.kind)
          ensures exists f :: f in t.entries && SameMapping(f, g)
        {
          assert g in t.entries && SameMapping(g, g);
        }
      }
    case In(kind, id, now) =>
      var i := FindExternal(t.entries, kind, id, 0);
      if i < |t.entries| {
        DescendsChanged(t, i, t.entries[i].(lastUpdated := now));
      } else {
        DescendsThinned(t, t.entries, seq(|t.entries|, j requires 0 <= j < |t.entries| => j));
      }
    case Tick(to, now) =>
      var at := FreshThins(to, t.entries, now);
      DescendsThinned(t, Fresh(to, t.entries, now), at);
    case Conns(i, cs) =>
      if i < |t.entries| {
        DescendsChanged(t, i, t.entries[i].(conns := cs));
      } else {
        DescendsThinned(t, t.entries, seq(|t.entries|, j requires 0 <= j < |t.entries| => j));
      }
  }

  lemma {:induction false} RunDescends(t: Table, es: seq<Event>)
    requires TableInv(t)
    ensures TableInv(Run(t, es)) && Descends(t, Run(t, es))
  {
    if es == [] {
      DescendsThinned(t, t.entries, seq(|t.entries|, j requires 0 <= j < |t.entries| => j));
    } else {
      var u, last := Run(t, es[..|es| - 1]), es[|es| - 1];
      RunDescends(t, es[..|es| - 1]);
      NextKeeps(u, last);
      NextDescends(u, last);
      forall g | g in Next(u, last).entries && g.born < t.Made(g.kind)
        ensures exists e :: e in t.entries && SameMapping(e, g)
      {
        var f :| f in u.entries && SameMapping(f, g);
        var e :| e in t.entries && SameMapping(e, f);
        assert SameMapping(e, g);
      }
    }
  }

  lemma {:induction false} RunAppend(t: Table, es: seq<Event>, fs: seq<Event>)
    ensures Run(t, es + fs) == Run(Run(t, es), fs)
    decreases |fs|
  {
    if fs == [] {
      assert es + fs == es;
    } else {
      assert (es + fs)[..|es + fs| - 1] == es + fs[..|fs| - 1];
      RunAppend(t, es, fs[..|fs| - 1]);
    }
  }

  /** The id that goes out is that of a mapping for the packet's source. */
  lemma OutboundGives(t: Table, kind: Kind, ip: nat, aux: nat, now: int) returns (e: Entry)
    requires TableInv(t)
    ensures var (t', id) := Outbound(t, kind, ip, aux, now);
      TableInv(t') && e in t'.entries && MatchesInternal(e, kind, ip, aux) && e.auxExt == id
  {
    InsertKeeps(t, kind, ip, aux, now);
    var t' := Insert(t, kind, ip, aux, now);
    var i := FindInternal(t.entries, kind, ip, aux, 0);
    assert MatchesInternal(t'.entries[if i < |t.entries| then i else 0], kind, ip, aux);
    e := t'.entries[FindInternal(t'.entries, kind, ip, aux, 0)];
  }

  /** Two mappings of a kind have different numbers. */
  lemma NumbersDiffer(t: Table, e: Entry, f: Entry)
    requires TableInv(t) && e in t.entries && f in t.entries && e.kind == f.kind && e.born == f.born
    ensures e == f
  {
    var i: nat :| i < |t.entries| && t.entries[i] == e;
    var j: nat :| j < |t.entries| && t.entries[j] == f;
    assert i == j;
  }

  /** What has the number of a mapping made before is that mapping. */
  lemma StillThere(t: Table, u: Table, e: Entry, g: Entry)
    requires TableInv(t) && Descends(t, u) && e in t.entries && g in u.entries && g.kind == e.kind && g.born == e.born
    ensures SameMapping(e, g)
  {
    assert Numbered(t, e);
    var f :| f in t.entries && SameMapping(f, g);
    NumbersDiffer(t, e, f);
  }

  /** From any run on: a packet goes out through mapping e, anything happens, and a packet comes back for the id. If e
      is still live and the live mappings of its kind are recent, the packet is rewritten to the address and port that
      the first one came from. */
  lemma TranslationInverts(before: seq<Event>, kind: Kind, ip: nat, aux: nat, sent: int, between: seq<Event>, back: int)
      returns (e: Entry)
    ensures var (t, id) := Outbound(Run(EMPTY, before), kind, ip, aux, sent);
      var u := Run(t, between);
      && e in t.entries && MatchesInternal(e, kind, ip, aux) && e.auxExt == id
      && ((exists g :: g in u.entries && g.kind == kind && g.born == e.born) && Recent(u, kind) ==>
        Inbound(u, kind, id, back).1 == Rewritten(ip, aux))
  {
    RunKeeps(before);
    var (t, id) := Outbound(Run(EMPTY, before), kind, ip, aux, sent);
    var u := Run(t, between);
    e := OutboundGives(Run(EMPTY, before), kind, ip, aux, sent);
    RunDescends(t, between);
    if (exists g :: g in u.entries && g.kind == kind && g.born == e.born) && Recent(u, kind) {
      var g :| g in u.entries && g.kind == kind && g.born == e.born;
      StillThere(t, u, e, g);
      ComesBack(before, kind, ip, aux, sent, between, back, g);
    }
  }

  lemma ComesBack(before: seq<Event>, kind: Kind, ip: nat, aux: nat, sent: int, between: seq<Event>, back: int,
                  g: Entry)
    requires var u := Run(Outbound(Run(EMPTY, before), kind, ip, aux, sent).0, between);
      g in u.entries && MatchesInternal(g, kind, ip, aux) && Recent(u, kind)
    ensures var u := Run(Outbound(Run(EMPTY, before), kind, ip, aux, sent).0, between);
      Inbound(u, kind, g.auxExt, back).1 == Rewritten(ip, aux)
  {
    var out := Out(kind, ip, aux, sent);
    var u := Run(Outbound(Run(EMPTY, before), kind, ip, aux, sent).0, between);
    RunAppend(EMPTY, before, [out]);
    assert [out][..0] == [];
    RunAppend(EMPTY, before + [out], between);
    var i: nat :| i < |u.entries| && u.entries[i] == g;
    ReplyComesBack(before + [out] + between, kind, i, back);
  }

  // ---------------------------------------------------------------------------------------------
  // Linked lists
  // ---------------------------------------------------------------------------------------------

  /** Node i, null after the last one. */
  ghost function At(ns: seq<object>, i: nat): object?
  {
    if i < |ns| then ns[i] else null
  }

  /** Starting at head and following the links, these are the nodes. */
  ghost predicate Linked(head: object?, ns: seq<object>, nexts: seq<object?>)
  {
    && head == At(ns, 0) && |nexts| == |ns|
    && forall i {:trigger LinkAt(ns, nexts, i)} :: 0 <= i < |ns| ==> LinkAt(ns, nexts, i)
  }

  ghost predicate LinkAt(ns: seq<object>, nexts: seq<object?>, i: int)
    requires 0 <= i < |ns| == |nexts|
  {
    nexts[i] == At(ns, i + 1)
  }

  /** A node has one link. */
  ghost predicate OneLink(ns: seq<object>, nexts: seq<object?>)
  {
    |nexts| == |ns| && forall i, j :: 0 <= i < |ns| && 0 <= j < |ns| && ns[i] == ns[j] ==> nexts[i] == nexts[j]
  }

  /** A chain that ends does not meet itself. */
  lemma {:induction false} NoCycle(head: object?, ns: seq<object>, nexts: seq<object?>, i: nat, j: nat)
    requires Linked(head, ns, nexts) && OneLink(ns, nexts) && i < j < |ns|
    ensures ns[i] != ns[j]
    decreases |ns| - j
  {
    assert LinkAt(ns, nexts, i) && LinkAt(ns, nexts, j);
    if j + 1 < |ns| {
      NoCycle(head, ns, nexts, i + 1, j + 1);
    }
  }

  lemma NoCycles(head: object?, ns: seq<object>, nexts: seq<object?>)
    requires Linked(head, ns, nexts) && OneLink(ns, nexts)
    ensures Distinct(ns)
  {
    forall i, j | 0 <= i < j < |ns|
      ensures ns[i] != ns[j]
    {
      NoCycle(head, ns, nexts, i, j);
    }
  }

  ghost predicate Distinct(ns: seq<object>)
  {
    forall i, j :: 0 <= i < j < |ns| ==> ns[i] != ns[j]
  }

  /** The links once the one to node k was moved on to the node after it. */
  ghost function Moved<T>(nexts: seq<T>, k: nat): (r: seq<T>)
    requires k < |nexts|
    ensures |r| == |nexts|
  {
    if k == 0 then nexts else nexts[k - 1 := nexts[k]]
  }

  function Without<T>(s: seq<T>, k: nat): (r: seq<T>)
    requires k < |s|
    ensures |r| == |s| - 1 && forall i :: 0 <= i < |r| ==> r[i] == s[if i < k then i else i + 1]
  {
    s[..k] + s[k + 1..]
  }

  lemma LinkedCons(m: object, head: object?, ns: seq<object>, nexts: seq<object?>)
    requires Linked(head, ns, nexts)
    ensures Linked(m, [m] + ns, [head] + nexts)
  {
    var ns', nexts' := [m] + ns, [head] + nexts;
    forall i | 0 <= i < |ns'|
      ensures LinkAt(ns', nexts', i)
    {
      if i > 0 { assert LinkAt(ns, nexts, i - 1); }
    }
  }

  lemma LinkedCut(head: object?, ns: seq<object>, nexts: seq<object?>, k: nat)
    requires Linked(head, ns, nexts) && k < |ns|
    ensures Linked(if k == 0 then nexts[0] else head, Without(ns, k), Without(Moved(nexts, k), k))
  {
    var ns', nexts' := Without(ns, k), Without(Moved(nexts, k), k);
    assert LinkAt(ns, nexts, k);
    forall i | 0 <= i < |ns'|
      ensures LinkAt(ns', nexts', i)
    {
      assert LinkAt(ns, nexts, i) && LinkAt(ns, nexts, i + 1);
    }
  }

  // ---------------------------------------------------------------------------------------------
  // The connections of a mapping
  // ---------------------------------------------------------------------------------------------

  /** A node of a mapping's list. Only its place in the list changes here. */
  class Conn {
    const ipExt: nat
    const portExt: nat
    const state: TcpState
    const lastUpdated: int
    var next: Conn?
    ghost const owner: Mapping

    constructor (c: Connection, next: Conn?, ghost owner: Mapping)
      ensures Value() == c && this.next == next && this.owner == owner
    {
      ipExt, portExt, state, lastUpdated := c.ipExt, c.portExt, c.state, c.lastUpdated;
      this.next, this.owner := next, owner;
    }

    function Value(): Connection
    {
      Connection(ipExt, portExt, state, lastUpdated)
    }
  }

  ghost function ConnValues(cs: seq<Conn>): (vs: seq<Connection>)
    ensures |vs| == |cs|
  {
    seq(|cs|, i requires 0 <= i < |cs| => cs[i].Value())
  }

  ghost function ConnNexts(cs: seq<Conn>): (r: seq<Conn?>)
    reads cs
    ensures |r| == |cs| && forall i {:trigger r[i]} {:trigger cs[i]} :: 0 <= i < |cs| ==> r[i] == cs[i].next
  {
    seq(|cs|, i requires 0 <= i < |cs| reads cs => cs[i].next)
  }

  lemma PickConns(cs: seq<Conn>, k: nat)
    requires k < |cs|
    ensures ConnNexts(Without(cs, k)) == Without(ConnNexts(cs), k)
    ensures ConnValues(Without(cs, k)) == Without(ConnValues(cs), k)
  {
  }

  /** One more connection looked at. */
  lemma LiveStep(to: Timeouts, vs: seq<Connection>, k: nat, now: int, ws: seq<Connection>)
    requires k < |vs| && ws == if ShouldTimeout(to, vs[k], now) then Without(vs, k) else vs
    ensures var n := if ShouldTimeout(to, vs[k], now) then k else k + 1;
      ws[..n] + LiveConns(to, ws[n..], now) == vs[..k] + LiveConns(to, vs[k..], now)
  {
    if ShouldTimeout(to, vs[k], now) {
      assert ws[..k] == vs[..k] && ws[k..] == vs[k..][1..];
    } else {
      assert ws[..k + 1] == vs[..k] + [vs[k]] && ws[k + 1..] == vs[k..][1..];
    }
  }

  class Mapping {
    const kind: Kind
    const ipInt: nat
    const auxInt: nat
    const auxExt: nat
    var lastUpdated: int
    var conns: Conn?
    var next: Mapping?
    ghost const born: nat
    ghost var connNodes: seq<Conn>

    constructor (kind: Kind, ipInt: nat, auxInt: nat, auxExt: nat, now: int, next: Mapping?, ghost born: nat)
      ensures this.next == next && Value() == Entry(kind, ipInt, auxInt, auxExt, now, [], born)
      ensures ConnsValid() && connNodes == []
    {
      this.kind, this.ipInt, this.auxInt, this.auxExt, this.born := kind, ipInt, auxInt, auxExt, born;
      lastUpdated, conns, connNodes := now, null, [];
      this.next := next;
    }

    ghost function Value(): Entry
      reads this
    {
      Entry(kind, ipInt, auxInt, auxExt, lastUpdated, ConnValues(connNodes), born)
    }

    /** The list of connections is linked, and its nodes are this mapping's. */
    ghost predicate ConnsValid()
      reads this`conns, this`connNodes, connNodes
    {
      Linked(conns, connNodes, ConnNexts(connNodes)) && forall c :: c in connNodes ==> c.owner == this
    }

    /** A new connection in front. */
    method AddConnection(c: Connection)
      requires ConnsValid()
      modifies this`conns, this`connNodes
      ensures ConnsValid() && ConnValues(connNodes) == [c] + old(ConnValues(connNodes))
    {
      var conn := new Conn(c, conns, this);
      LinkedCons(conn, conns, connNodes, ConnNexts(connNodes));
      assert ConnNexts([conn] + connNodes) == [conns] + ConnNexts(connNodes);
      assert ConnValues([conn] + connNodes) == [c] + ConnValues(connNodes);
      conns := conn;
      connNodes := [conn] + connNodes;
    }

    /** prev->next = next, or the head of the list. */
    method MoveConn(prev: Conn?, conn: Conn, ghost k: nat)
      requires ConnsValid() && k < |connNodes| && conn == connNodes[k]
      requires prev == if k == 0 then null else connNodes[k - 1]
      modifies this`conns, connNodes
      ensures ConnNexts(connNodes) == Moved(old(ConnNexts(connNodes)), k)
      ensures conns == if k == 0 then old(ConnNexts(connNodes))[0] else old(conns)
    {
      NoCycles(conns, connNodes, ConnNexts(connNodes));
      assert conn.next == ConnNexts(connNodes)[k];
      if prev != null {
        prev.next := conn.next;
      } else {
        conns := conn.next;
      }
    }

    /** Takes connection k out of the list. */
    method UnlinkConn(prev: Conn?, conn: Conn, ghost k: nat)
      requires ConnsValid() && k < |connNodes| && conn == connNodes[k]
      requires prev == if k == 0 then null else connNodes[k - 1]
      modifies this`conns, this`connNodes, connNodes
      ensures ConnsValid() && connNodes == Without(old(connNodes), k)
      ensures ConnValues(connNodes) == Without(old(ConnValues(connNodes)), k)
    {
      LinkedCut(conns, connNodes, ConnNexts(connNodes), k);
      MoveConn(prev, conn, k);
      PickConns(connNodes, k);
      connNodes := Without(connNodes, k);
    }

    /** What the loop has done when it comes to connection k, which is conn, after prev. */
    ghost predicate Timed(all: seq<Conn>, to: Timeouts, vs: seq<Connection>, now: int, k: nat, prev: Conn?, conn: Conn?)
      reads this`conns, this`connNodes, connNodes
    {
      && ConnsValid() && k <= |connNodes| && (forall i :: 0 <= i < |connNodes| ==> connNodes[i] in all)
      && conn == (if k < |connNodes| then connNodes[k] else null)
      && prev == (if k == 0 then null else connNodes[k - 1])
      && ConnValues(connNodes)[..k] + LiveConns(to, ConnValues(connNodes)[k..], now) == LiveConns(to, vs, now)
    }

    /** One turn of the loop over the connections: where the loop is now. */
    method TimeoutConn(to: Timeouts, prev: Conn?, conn: Conn, now: int,
                       ghost all: seq<Conn>, ghost vs: seq<Connection>, ghost k: nat)
      returns (prev': Conn?, next: Conn?, ghost k': nat)
      requires Timed(all, to, vs, now, k, prev, conn)
      modifies this`conns, this`connNodes, all
      ensures Timed(all, to, vs, now, k', prev', next) && |connNodes| - k' < old(|connNodes|) - k
    {
      ghost var was := ConnValues(connNodes);
      next := conn.next;
      assert LinkAt(connNodes, ConnNexts(connNodes), k);
      var gone := ShouldTimeout(to, conn.Value(), now);
      if gone {
        UnlinkConn(prev, conn, k);
        prev', k' := prev, k;
      } else {
        prev', k' := conn, k + 1;
      }
      TimedOn(all, to, vs, was, now, k, gone, prev', next, k');
    }

    lemma TimedOn(all: seq<Conn>, to: Timeouts, vs: seq<Connection>, was: seq<Connection>, now: int, k: nat, gone: bool,
                  prev': Conn?, next: Conn?, k': nat)
      requires ConnsValid() && (forall i :: 0 <= i < |connNodes| ==> connNodes[i] in all)
      requires k < |was| && was[..k] + LiveConns(to, was[k..], now) == LiveConns(to, vs, now)
      requires gone == ShouldTimeout(to, was[k], now)
      requires ConnValues(connNodes) == if gone then Without(was, k) else was
      requires k' == (if gone then k else k + 1) && next == At(connNodes, k')
      requires k' <= |connNodes| && prev' == if k' == 0 then null else connNodes[k' - 1]
      ensures Timed(all, to, vs, now, k', prev', next)
    {
      LiveStep(to, was, k, now, ConnValues(connNodes));
    }

    /** timeout_connections: unlinks the connections that have been idle too long, in place. */
    method TimeoutConnections(to: Timeouts, now: int)
      requires ConnsValid()
      modifies this`conns, this`connNodes, connNodes
      ensures ConnsValid() && ConnValues(connNodes) == LiveConns(to, old(ConnValues(connNodes)), now)
      ensures forall c :: c in connNodes ==> c in old(connNodes)
    {
      var conn, prev: Conn? := conns, null;
      ghost var k, all, vs := 0, connNodes, ConnValues(connNodes);
      assert vs[..0] + LiveConns(to, vs[0..], now) == LiveConns(to, vs, now);
      while conn != null
        invariant Timed(all, to, vs, now, k, prev, conn)
        decreases |connNodes| - k
      {
        prev, conn, k := TimeoutConn(to, prev, conn, now, all, vs, k);
      }
      AllTimed(all, to, vs, now, k, prev);
    }

    lemma AllTimed(all: seq<Conn>, to: Timeouts, vs: seq<Connection>, now: int, k: nat, prev: Conn?)
      requires Timed(all, to, vs, now, k, prev, null)
      ensures ConnValues(connNodes) == LiveConns(to, vs, now)
    {
      assert ConnValues(connNodes)[k..] == [] && ConnValues(connNodes)[..k] == ConnValues(connNodes);
    }
  }

  // ---------------------------------------------------------------------------------------------
  // The table
  // ---------------------------------------------------------------------------------------------

  ghost function Nexts(ns: seq<Mapping>): (r: seq<Mapping?>)
    reads ns
    ensures |r| == |ns| && forall i {:trigger r[i]} {:trigger ns[i]} :: 0 <= i < |ns| ==> r[i] == ns[i].next
  {
    seq(|ns|, i requires 0 <= i < |ns| reads ns => ns[i].next)
  }

  ghost predicate Chain(head: Mapping?, ns: seq<Mapping>)
    reads ns
  {
    Linked(head, ns, Nexts(ns))
  }

  lemma WithoutAged<T>(s: seq<T>, k: nat, x: T)
    requires k < |s|
    ensures Without(s[k := x], k) == Without(s, k)
  {
  }

  lemma PickWithout(ns: seq<Mapping>, k: nat)
    requires k < |ns|
    ensures Nexts(Without(ns, k)) == Without(Nexts(ns), k) && Values(Without(ns, k)) == Without(Values(ns), k)
  {
  }

  ghost function Values(ns: seq<Mapping>): (es: seq<Entry>)
    reads ns
    ensures |es| == |ns|
  {
    seq(|ns|, i requires 0 <= i < |ns| reads ns => ns[i].Value())
  }

  /** The connections of all mappings. */
  ghost function ConnsOf(ns: seq<Mapping>): set<Conn>
    reads ns`connNodes
  {
    set m, c | m in ns && c in m.connNodes :: c
  }

  /** The connections of a mapping are among those of all. */
  lemma OwnConns(m: Mapping, ns: seq<Mapping>)
    requires m in ns
    ensures forall i :: 0 <= i < |m.connNodes| ==> m.connNodes[i] in ConnsOf(ns)
    ensures forall c :: c in m.connNodes ==> c in ConnsOf(ns)
  {
    forall i | 0 <= i < |m.connNodes|
      ensures m.connNodes[i] in ConnsOf(ns)
    {
      assert m.connNodes[i] in m.connNodes;
    }
  }

  ghost predicate AllConnsValid(ns: seq<Mapping>)
    reads ns`conns, ns`connNodes, ConnsOf(ns)
  {
    forall m :: m in ns ==> (OwnConns(m, ns); m.ConnsValid())
  }

  lemma FewerConns(ns: seq<Mapping>, k: nat)
    requires AllConnsValid(ns) && k < |ns|
    ensures AllConnsValid(Without(ns, k)) && ConnsOf(Without(ns, k)) <= ConnsOf(ns)
  {
    var ns' := Without(ns, k);
    forall m | m in ns'
      ensures m in ns
    {
      var i :| 0 <= i < |ns'| && ns'[i] == m;
    }
  }

  lemma MoreConns(m: Mapping, ns: seq<Mapping>)
    requires AllConnsValid(ns) && m.ConnsValid()
    ensures AllConnsValid([m] + ns)
  {
  }

  /** Different mappings have different connections. */
  lemma OwnersApart(m: Mapping, ns: seq<Mapping>)
    requires AllConnsValid(ns) && m in ns
    ensures forall m', c :: m' in ns && m' != m && c in m'.connNodes ==> c !in m.connNodes
  {
    assert m.ConnsValid();
    forall m', c | m' in ns && m' != m && c in m'.connNodes
      ensures c !in m.connNodes
    {
      assert m'.ConnsValid();
    }
  }

  /** As long as its own links stay, the connections of a mapping are as they were. */
  twostate lemma ConnsKept(m': Mapping)
    requires old(m'.ConnsValid()) && m'.conns == old(m'.conns) && m'.connNodes == old(m'.connNodes)
    requires forall c :: c in old(m'.connNodes) ==> c.next == old(c.next)
    ensures m'.ConnsValid()
  {
    assert ConnNexts(m'.connNodes) == old(ConnNexts(m'.connNodes));
  }

  class NatTable {
    var mappings: Mapping?
    var tcpId: nat
    var icmpId: nat
    const to: Timeouts
    ghost var nodes: seq<Mapping>
    ghost var madeIcmp: nat
    ghost var madeTcp: nat

    ghost predicate Valid()
      reads this, nodes, ConnsOf(nodes)
    {
      && Chain(mappings, nodes) && AllConnsValid(nodes)
      && tcpId == IdOf(Tcp, madeTcp) && icmpId == IdOf(Icmp, madeIcmp)
    }

    ghost function State(): Table
      reads this, nodes
    {
      Table(Values(nodes), madeIcmp, madeTcp)
    }

    constructor (to: Timeouts)
      ensures Valid() && State() == EMPTY
    {
      this.to := to;
      mappings, nodes := null, [];
      tcpId, icmpId, madeTcp, madeIcmp := MIN_TCP_PORT, 0, 0, 0;
    }

    /** nat_lookup_internal_no_lock */
    method LookupInternal(kind: Kind, ip: nat, aux: nat, now: int) returns (m: Mapping?)
      requires Valid()
      modifies nodes`lastUpdated
      ensures Valid() && m == At(nodes, FindInternal(old(State().entries), kind, ip, aux, 0))
      ensures State() ==
              old(State().(entries := Touch(State().entries, FindInternal(State().entries, kind, ip, aux, 0), now)))
    {
      m := mappings;
      ghost var i := 0;
      while m != null && !(m.ipInt == ip && m.auxInt == aux && m.kind == kind)
        invariant i <= |nodes| && m == At(nodes, i)
        invariant FindInternal(Values(nodes), kind, ip, aux, 0) == FindInternal(Values(nodes), kind, ip, aux, i)
        decreases |nodes| - i
      {
        assert LinkAt(nodes, Nexts(nodes), i);
        m := m.next;
        i := i + 1;
      }
      if m != null {
        NoCycles(mappings, nodes, Nexts(nodes));
        m.lastUpdated := now;
        assert Nexts(nodes) == old(Nexts(nodes));
      }
    }

    /** nat_lookup_external_no_lock */
    method LookupExternal(kind: Kind, aux: nat, now: int) returns (m: Mapping?)
      requires Valid()
      modifies nodes`lastUpdated
      ensures Valid() && m == At(nodes, FindExternal(old(State().entries), kind, aux, 0))
      ensures State() ==
              old(State().(entries := Touch(State().entries, FindExternal(State().entries, kind, aux, 0), now)))
    {
      m := mappings;
      ghost var i := 0;
      while m != null && !(m.auxExt == aux && m.kind == kind)
        invariant i <= |nodes| && m == At(nodes, i)
        invariant FindExternal(Values(nodes), kind, aux, 0) == FindExternal(Values(nodes), kind, aux, i)
        decreases |nodes| - i
      {
        assert LinkAt(nodes, Nexts(nodes), i);
        m := m.next;
        i := i + 1;
      }
      if m != null {
        NoCycles(mappings, nodes, Nexts(nodes));
        m.lastUpdated := now;
        assert Nexts(nodes) == old(Nexts(nodes));
      }
    }

    /** aux_ext = id++, and back to the beginning at the end. */
    method TakeId(kind: Kind) returns (id: nat, ghost born: nat)
      requires tcpId == IdOf(Tcp, madeTcp) && icmpId == IdOf(Icmp, madeIcmp)
      modifies this`tcpId, this`icmpId, this`madeTcp, this`madeIcmp
      ensures tcpId == IdOf(Tcp, madeTcp) && icmpId == IdOf(Icmp, madeIcmp)
      ensures id == IdOf(kind, born) && born == if kind == Icmp then old(madeIcmp) else old(madeTcp)
      ensures madeIcmp == old(madeIcmp) + (if kind == Icmp then 1 else 0)
        && madeTcp == old(madeTcp) + (if kind == Tcp then 1 else 0)
    {
      if kind == Icmp {
        IdOfNext(Icmp, madeIcmp);
        id, born, madeIcmp := icmpId, madeIcmp, madeIcmp + 1;
        icmpId := icmpId + 1;
        if icmpId == USHRT_MAX {
          icmpId := 0;
        }
      } else {
        IdOfNext(Tcp, madeTcp);
        id, born, madeTcp := tcpId, madeTcp, madeTcp + 1;
        tcpId := tcpId + 1;
        if tcpId == USHRT_MAX {
          tcpId := MIN_TCP_PORT;
        }
      }
    }

    /** A new mapping in front. */
    method AddMapping(kind: Kind, ip: nat, aux: nat, id: nat, now: int, ghost born: nat) returns (m: Mapping)
      requires Valid()
      modifies this`mappings, this`nodes
      ensures Valid() && nodes == [m] + old(nodes)
      ensures Values(nodes) == [Entry(kind, ip, aux, id, now, [], born)] + old(Values(nodes))
    {
      m := new Mapping(kind, ip, aux, id, now, mappings, born);
      LinkedCons(m, mappings, nodes, Nexts(nodes));
      assert Nexts([m] + nodes) == [mappings] + Nexts(nodes);
      MoreConns(m, nodes);
      mappings := m;
      nodes := [m] + nodes;
      assert Chain(mappings, nodes);
    }

    /** A new mapping with the next id. */
    method MakeMapping(kind: Kind, ip: nat, aux: nat, now: int) returns (m: Mapping)
      requires Valid()
      modifies this
      ensures Valid() && nodes == [m] + old(nodes)
      ensures var t := old(State()); var n := t.Made(kind);
        State() == Table([Entry(kind, ip, aux, IdOf(kind, n), now, [], n)] + t.entries,
                         t.madeIcmp + (if kind == Icmp then 1 else 0), t.madeTcp + (if kind == Tcp then 1 else 0))
    {
      var id, born := TakeId(kind);
      m := AddMapping(kind, ip, aux, id, now, born);
    }

    /** sr_nat_insert_mapping: the mapping for the key, made if there is none. */
    method InsertMapping(kind: Kind, ip: nat, aux: nat, now: int) returns (m: Mapping)
      requires Valid()
      modifies this, nodes`lastUpdated
      ensures Valid() && State() == Insert(old(State()), kind, ip, aux, now)
      ensures m == At(nodes, FindInternal(State().entries, kind, ip, aux, 0))
    {
      TouchFinds(Values(nodes), kind, ip, aux, now);
      var existing := LookupInternal(kind, ip, aux, now);
      if existing != null {
        return existing;
      }
      m := MakeMapping(kind, ip, aux, now);
      assert MatchesInternal(Values(nodes)[0], kind, ip, aux);
    }

    /** The source of an outgoing packet. */
    method TranslateOutbound(kind: Kind, ip: nat, aux: nat, now: int) returns (id: nat)
      requires Valid()
      modifies this, nodes`lastUpdated
      ensures Valid() && (State(), id) == Outbound(old(State()), kind, ip, aux, now)
    {
      var m := InsertMapping(kind, ip, aux, now);
      id := m.auxExt;
    }

    /** The destination of an incoming packet. */
    method TranslateInbound(kind: Kind, id: nat, now: int) returns (r: Reply)
      requires Valid()
      modifies nodes`lastUpdated
      ensures Valid() && (State(), r) == Inbound(old(State()), kind, id, now)
    {
      var m := LookupExternal(kind, id, now);
      r := if m == null then NoMapping else Rewritten(m.ipInt, m.auxInt);
    }

    /** prev->next = next, or the head of the list. */
    method MoveLink(prev: Mapping?, m: Mapping, ghost k: nat)
      requires Valid() && k < |nodes| && m == nodes[k] && prev == if k == 0 then null else nodes[k - 1]
      modifies this`mappings, nodes`next
      ensures Nexts(nodes) == Moved(old(Nexts(nodes)), k) && Values(nodes) == old(Values(nodes))
      ensures mappings == if k == 0 then old(Nexts(nodes))[0] else old(mappings)
    {
      NoCycles(mappings, nodes, Nexts(nodes));
      assert m.next == Nexts(nodes)[k];
      if prev != null {
        prev.next := m.next;
      } else {
        mappings := m.next;
      }
    }

    /** Takes node k out of the list. */
    method Unlink(prev: Mapping?, m: Mapping, ghost k: nat)
      requires Valid() && k < |nodes| && m == nodes[k] && prev == if k == 0 then null else nodes[k - 1]
      modifies this`mappings, this`nodes, nodes`next
      ensures Valid() && nodes == Without(old(nodes), k)
      ensures Values(nodes) == Without(old(Values(nodes)), k)
    {
      LinkedCut(mappings, nodes, Nexts(nodes), k);
      MoveLink(prev, m, k);
      PickWithout(nodes, k);
      FewerConns(nodes, k);
      nodes := Without(nodes, k);
      assert Chain(mappings, nodes);
    }

    /** Whether a mapping is stale, once its connections are looked at. */
    method AgeMapping(m: Mapping, now: int) returns (stale: bool)
      requires m.ConnsValid()
      modifies m`conns, m`connNodes, m.connNodes
      ensures m.ConnsValid() && forall c :: c in m.connNodes ==> c in old(m.connNodes)
      ensures stale == Stale(to, old(m.Value()), now) && m.Value() == Aged(to, old(m.Value()), now)
    {
      if m.kind == Icmp {
        stale := now - m.lastUpdated >= to.icmpQuery;
      } else {
        m.TimeoutConnections(to, now);
        stale := m.conns == null;
      }
    }

    /** Node k is aged in its place. */
    method AgeNode(m: Mapping, now: int, ghost k: nat) returns (stale: bool)
      requires Valid() && k < |nodes| && m == nodes[k]
      modifies m`conns, m`connNodes, m.connNodes
      ensures Valid() && Nexts(nodes) == old(Nexts(nodes)) && ConnsOf(nodes) <= old(ConnsOf(nodes))
      ensures stale == Stale(to, old(Values(nodes))[k], now)
      ensures Values(nodes) == old(Values(nodes))[k := Aged(to, old(Values(nodes))[k], now)]
    {
      NoCycles(mappings, nodes, Nexts(nodes));
      OwnersApart(m, nodes);
      assert m.ConnsValid();
      stale := AgeMapping(m, now);
      assert Nexts(nodes) == old(Nexts(nodes));
      forall m' | m' in nodes
        ensures m'.ConnsValid()
      {
        if m' != m { ConnsKept(m'); }
      }
    }

    /** One turn of the sweep, at node k. */
    method SweepNode(prev: Mapping?, m: Mapping, now: int, ghost k: nat) returns (stale: bool, next: Mapping?)
      requires Valid() && k < |nodes| && m == nodes[k] && prev == if k == 0 then null else nodes[k - 1]
      modifies this`mappings, this`nodes, nodes`next, m`conns, m`connNodes, m.connNodes
      ensures Valid() && ConnsOf(nodes) <= old(ConnsOf(nodes)) && stale == Stale(to, old(Values(nodes))[k], now)
      ensures nodes == (if stale then Without(old(nodes), k) else old(nodes))
        && next == At(nodes, if stale then k else k + 1)
      ensures Values(nodes) ==
        if stale then Without(old(Values(nodes)), k) else old(Values(nodes))[k := Aged(to, old(Values(nodes))[k], now)]
    {
      next := m.next;
      assert LinkAt(nodes, Nexts(nodes), k);
      ghost var was := Values(nodes);
      stale := AgeNode(m, now, k);
      if stale {
        WithoutAged(was, k, Aged(to, was[k], now));
        Unlink(prev, m, k);
      }
    }

    /** What the sweep has done when it comes to node k; all and cs are the mappings and connections at its start. */
    ghost predicate Swept(all: seq<Mapping>, cs: set<Conn>, es: seq<Entry>, now: int, k: nat)
      reads this, nodes, ConnsOf(nodes)
    {
      && Valid() && k <= |nodes| && (forall i :: 0 <= i < |nodes| ==> nodes[i] in all) && ConnsOf(nodes) <= cs
      && Rest(to, Values(nodes), k, now) == Fresh(to, es, now)
    }

    /** The sweep is at node m, the one after prev, or at the end. */
    ghost predicate Sweeping(all: seq<Mapping>, cs: set<Conn>, es: seq<Entry>, now: int, k: nat,
                             prev: Mapping?, m: Mapping?)
      reads this, nodes, ConnsOf(nodes)
    {
      && Swept(all, cs, es, now, k) && m == (if k < |nodes| then nodes[k] else null)
      && prev == if k == 0 then null else nodes[k - 1]
    }

    /** One turn of the sweep, within the mappings and connections there were at its start. */
    method SweepAt(prev: Mapping?, m: Mapping, now: int, ghost all: seq<Mapping>, ghost cs: set<Conn>, ghost k: nat)
      returns (stale: bool, next: Mapping?)
      requires Valid() && k < |nodes| && m == nodes[k] && prev == if k == 0 then null else nodes[k - 1]
      requires (forall i :: 0 <= i < |nodes| ==> nodes[i] in all) && ConnsOf(nodes) <= cs
      modifies this`mappings, this`nodes, all, cs
      ensures Valid() && (forall i :: 0 <= i < |nodes| ==> nodes[i] in all) && ConnsOf(nodes) <= cs
      ensures nodes == (if stale then Without(old(nodes), k) else old(nodes))
        && next == At(nodes, if stale then k else k + 1)
      ensures Rest(to, Values(nodes), if stale then k else k + 1, now) == Rest(to, old(Values(nodes)), k, now)
    {
      ghost var was := Values(nodes);
      OwnConns(m, nodes);
      stale, next := SweepNode(prev, m, now, k);
      SweepStep(to, was, k, now, Values(nodes));
    }

    /** One turn of the sweep's loop: where the sweep is now. */
    method SweepOne(prev: Mapping?, m: Mapping, now: int,
                    ghost all: seq<Mapping>, ghost cs: set<Conn>, ghost es: seq<Entry>, ghost k: nat)
      returns (prev': Mapping?, next: Mapping?, ghost k': nat)
      requires Sweeping(all, cs, es, now, k, prev, m)
      modifies this`mappings, this`nodes, all, cs
      ensures Sweeping(all, cs, es, now, k', prev', next) && |nodes| - k' < old(|nodes|) - k
    {
      var stale;
      stale, next := SweepAt(prev, m, now, all, cs, k);
      if stale {
        prev', k' := prev, k;
      } else {
        prev', k' := m, k + 1;
      }
    }

    /** The loop over the list. */
    method SweepNodes(now: int, ghost all: seq<Mapping>, ghost cs: set<Conn>, ghost es: seq<Entry>)
      requires Swept(all, cs, es, now, 0) && all == nodes && cs == ConnsOf(nodes)
      modifies this`mappings, this`nodes, nodes, ConnsOf(nodes)
      ensures Swept(all, cs, es, now, |nodes|)
    {
      var m, prev: Mapping? := mappings, null;
      ghost var k := 0;
      while m != null
        invariant Sweeping(all, cs, es, now, k, prev, m)
        decreases |nodes| - k
      {
        prev, m, k := SweepOne(prev, m, now, all, cs, es, k);
      }
    }

    /** nat_remove_stale_mappings: the list without the stale mappings, in its order. */
    method RemoveStaleMappings(now: int)
      requires Valid()
      modifies this`mappings, this`nodes, nodes, ConnsOf(nodes)
      ensures Valid() && State() == Sweep(old(State()), to, now)
    {
      ghost var all, cs, es := nodes, ConnsOf(nodes), Values(nodes);
      SweptNone(all, cs, es, now);
      SweepNodes(now, all, cs, es);
      SweptAll(all, cs, es, now, |nodes|);
    }

    lemma SweptNone(all: seq<Mapping>, cs: set<Conn>, es: seq<Entry>, now: int)
      requires Valid() && all == nodes && cs == ConnsOf(nodes) && es == Values(nodes)
      ensures Swept(all, cs, es, now, 0)
    {
      assert es[..0] + Fresh(to, es[0..], now) == Fresh(to, es, now);
    }

    lemma SweptAll(all: seq<Mapping>, cs: set<Conn>, es: seq<Entry>, now: int, k: nat)
      requires Swept(all, cs, es, now, k) && k == |nodes|
      ensures Values(nodes) == Fresh(to, es, now)
    {
      assert Values(nodes)[k..] == [] && Values(nodes)[..k] == Values(nodes);
    }
  }

  /** What a sweep that is at node k will leave. */
  ghost function Rest(to: Timeouts, es: seq<Entry>, k: nat, now: int): seq<Entry>
    requires k <= |es|
  {
    es[..k] + Fresh(to, es[k..], now)
  }

  /** One more node looked at. */
  lemma SweepStep(to: Timeouts, es: seq<Entry>, k: nat, now: int, gs: seq<Entry>)
    requires k < |es|
    requires gs == if Stale(to, es[k], now) then Without(es, k) else es[k := Aged(to, es[k], now)]
    ensures var n := if Stale(to, es[k], now) then k else k + 1;
      n <= |gs| && Rest(to, gs, n, now) == Rest(to, es, k, now)
  {
    if Stale(to, es[k], now) {
      assert gs[..k] == es[..k] && gs[k..] == es[k..][1..];
    } else {
      assert gs[..k + 1] == es[..k] + [Aged(to, es[k], now)] && gs[k + 1..] == es[k..][1..];
    }
  }

  lemma TouchFinds(es: seq<Entry>, kind: Kind, ip: nat, aux: nat, now: int)
    ensures var i := FindInternal(es, kind, ip, aux, 0);
      FindInternal(Touch(es, i, now), kind, ip, aux, 0) == i
  {
    var i := FindInternal(es, kind, ip, aux, 0);
    var es' := Touch(es, i, now);
    var j := FindInternal(es', kind, ip, aux, 0);
    assert j >= i;
    if i < |es| { assert MatchesInternal(es'[i], kind, ip, aux); }
  }
}
