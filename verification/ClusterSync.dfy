/** One synchronisation of a cluster with the servers that are out there
    (syncServersIteration in mgo.v2/cluster.go): one goroutine for every address that is known or
    that a server names, racing through two critical sections. */
module ClusterSync {

  /** Resolved addresses. */
  type Addr = nat

  /** A server object: its resolved address, and a number that tells objects apart. */
  datatype Server = Server(addr: Addr, serial: nat)

  datatype Pending = Pending(server: Server, master: bool)

  /** Where a goroutine stands. */
  datatype Pc =
    | Resolving
    | First(addr: Addr)                                              // before the first critical section
    | AddPending(addr: Addr, pending: Pending)                       // adding what was found pending
    | Looking(addr: Addr)                                            // about to get the server object
    | Contacting(addr: Addr, server: Server)
    | Dropping(server: Server)                                       // the server did not answer
    | Second(addr: Addr, pending: Pending, hosts: seq<nat>)          // before the second critical section
    | Adding(addr: Addr, pending: Pending, hosts: seq<nat>)
    | Spawning(master: bool, hosts: seq<nat>)
    | Done

  datatype Option<T> = None | Some(value: T)

  /** A name that a server gave, and whether the server was a master. */
  datatype Name = Name(host: nat, byMaster: bool)

  /** A goroutine: the name it was started for, whether a master gave it, and what it resolved to. */
  datatype Task = Task(host: nat, byMaster: bool, to: Option<Addr>, pc: Pc)

  /** What the network answers. */
  datatype Event =
    | Run
    | Resolved(to: Addr)
    | NotResolved
    | Answers(master: bool, hosts: seq<nat>)
    | NoAnswer

  /** Everything the goroutines share, and a record of what they did and of what they were told. */
  datatype Shared = Shared(
    servers: map<Addr, Server>,        // the cluster
    serial: nat,                       // object numbers used so far
    notYetAdded: map<Addr, Pending>,
    addIfFound: set<Addr>,
    seen: set<Addr>,
    complete: bool,                    // syncKind
    duplicate: bool,                   // addServer panicked
    adds: seq<Addr>,                   // who was added, in order
    named: set<Addr>,                  // who was named by a master
    known: set<Addr>,                  // the cluster at the start
    gone: set<Addr>,                   // taken out by others
    found: set<Addr>,                  // what names resolved to
    contacts: seq<Addr>,               // who was contacted, in order
    silent: set<Addr>,                 // who did not answer
    answered: set<Addr>,
    masters: set<Addr>,                // who answered as a master
    promised: set<Name>)               // the names that servers gave

  datatype Sync = Sync(h: Shared, tasks: seq<Task>)

  /** What a step of a goroutine does: to the shared state, to itself, and whom it starts. */
  datatype Effect = Effect(h: Shared, pc: Pc, spawned: seq<Task>)

  function Only(h: Shared, pc: Pc): Effect {
    Effect(h, pc, [])
  }

  /** addServer for a complete synchronisation. */
  function AddServer(h: Shared, addr: Addr, server: Server): Shared {
    if addr in h.servers && h.servers[addr] != server then h.(duplicate := true)
    else h.(servers := h.servers[addr := server], adds := h.adds + [addr])
  }

  /** The first critical section. */
  function FirstSection(h: Shared, byMaster: bool, addr: Addr): Effect {
    if byMaster && addr in h.notYetAdded then
      Only(h.(notYetAdded := h.notYetAdded - {addr}, named := h.named + {addr}), AddPending(addr, h.notYetAdded[addr]))
    else
      var found := if byMaster then h.addIfFound + {addr} else h.addIfFound;
      var named := if byMaster then h.named + {addr} else h.named;
      if addr in h.seen then Only(h.(addIfFound := found, named := named), Done)
      else Only(h.(addIfFound := found, named := named, seen := h.seen + {addr}), Looking(addr))
  }

  /** The second critical section. */
  function SecondSection(direct: bool, h: Shared, addr: Addr, pending: Pending, hosts: seq<nat>): Effect {
    if direct || pending.master || addr in h.addIfFound then
      Only(h.(complete := true), Adding(addr, pending, hosts))
    else
      Only(h.(notYetAdded := h.notYetAdded[addr := pending]), Spawning(pending.master, hosts))
  }

  /** What a goroutine is told is recorded, whatever it makes of it. */
  function Heard(direct: bool, h: Shared, pc: Pc, e: Event): Shared {
    if pc.Resolving? && e.Resolved? then h.(found := h.found + {e.to})
    else if pc.Contacting? && e.NoAnswer? then h.(contacts := h.contacts + [pc.addr], silent := h.silent + {pc.addr})
    else if pc.Contacting? && e.Answers? then
      h.(contacts := h.contacts + [pc.addr], answered := h.answered + {pc.addr},
         masters := if e.master then h.masters + {pc.addr} else h.masters,
         promised := if direct then h.promised else h.promised + (set x | x in e.hosts :: Name(x, e.master)))
    else h
  }

  function Do(direct: bool, h: Shared, t: Task, e: Event): Effect {
    Act(direct, Heard(direct, h, t.pc, e), t, e)
  }

  /** One step of a goroutine; events that do not fit change nothing. */
  function Act(direct: bool, h: Shared, t: Task, e: Event): Effect {
    match t.pc
    case Resolving =>
      if e.Resolved? then Only(h, First(e.to)) else if e.NotResolved? then Only(h, Done) else Only(h, t.pc)
    case First(addr) => FirstSection(h, t.byMaster, addr)
    case AddPending(addr, pending) => Only(AddServer(h, addr, pending.server), Done)
    case Looking(addr) =>
      if addr in h.servers then Only(h, Contacting(addr, h.servers[addr]))
      else Only(h.(serial := h.serial + 1), Contacting(addr, Server(addr, h.serial)))
    case Contacting(addr, server) =>
      if e.NoAnswer? then Only(h, Dropping(server))
      else if e.Answers? then Only(h, Second(addr, Pending(server, e.master), e.hosts))
      else Only(h, t.pc)
    case Dropping(server) => Only(h.(servers := h.servers - {server.addr}), Done)
    case Second(addr, pending, hosts) => SecondSection(direct, h, addr, pending, hosts)
    case Adding(addr, pending, hosts) => Only(AddServer(h, addr, pending.server), Spawning(pending.master, hosts))
    case Spawning(master, hosts) =>
      if direct || hosts == [] then Only(h, Done)
      else Effect(h, Spawning(master, hosts[1..]), [Task(hosts[0], master, None, Resolving)])
    case Done => Only(h, t.pc)
  }

  function After(t: Task, pc: Pc): Task {
    t.(pc := pc, to := if t.pc.Resolving? && pc.First? then Some(pc.addr) else t.to)
  }

  function Step(direct: bool, s: Sync, i: nat, e: Event): Sync
    requires i < |s.tasks|
  {
    var x := Do(direct, s.h, s.tasks[i], e);
    Sync(x.h, s.tasks[i := After(s.tasks[i], x.pc)] + x.spawned)
  }

  /** Others take servers that died out of the cluster. */
  function RemoveOther(h: Shared, addr: Addr): Shared {
    h.(servers := h.servers - {addr}, gone := h.gone + {addr})
  }

  ghost predicate Next(direct: bool, s: Sync, s': Sync) {
    || (exists i: nat, e :: i < |s.tasks| && s' == Step(direct, s, i, e))
    || (exists addr: Addr :: s' == s.(h := RemoveOther(s.h, addr)))
  }

  /** The start: the goroutines for the known addresses. */
  ghost predicate Init(s: Sync) {
    && (forall a :: a in s.h.servers ==> s.h.servers[a].addr == a && s.h.servers[a].serial < s.h.serial)
    && (forall i :: 0 <= i < |s.tasks| ==> s.tasks[i].pc == Resolving && !s.tasks[i].byMaster && s.tasks[i].to == None)
    && s.h.notYetAdded == map[] && s.h.addIfFound == {} && s.h.seen == {} && !s.h.complete && !s.h.duplicate
    && s.h.contacts == [] && s.h.adds == [] && s.h.answered == {} && s.h.masters == {} && s.h.named == {} && s.h.promised == {}
    && s.h.known == s.h.servers.Keys && s.h.gone == {} && s.h.found == {} && s.h.silent == {}
  }

  ghost predicate IsRun(direct: bool, run: seq<Sync>) {
    && run != [] && Init(run[0])
    && forall i :: 0 <= i < |run| - 1 ==> Next(direct, run[i], run[i + 1])
  }

  // --- The invariant ------------------------------------------------------------------------

  /** The goroutine took charge of its address, and did not contact the server yet. */
  predicate Early(pc: Pc) {
    pc.Looking? || pc.Contacting?
  }

  /** It is about to add the server. */
  predicate Adds(pc: Pc) {
    pc.Adding? || pc.AddPending?
  }

  predicate InCharge(pc: Pc) {
    Early(pc) || pc.Second? || Adds(pc)
  }

  /** The server object a goroutine works with. */
  predicate HasServer(pc: Pc) {
    pc.Contacting? || pc.Second? || pc.Adding? || pc.AddPending?
  }

  function ServerOf(pc: Pc): Server
    requires HasServer(pc)
  {
    if pc.Contacting? then pc.server else pc.pending.server
  }

  /** What is known of one address. Exactly one of these places has it, once it was seen: a
      goroutine in charge, the pending ones, those added, or those that did not answer. */
  ghost predicate AddrOk(h: Shared, addr: Addr) {
    && (addr in h.notYetAdded ==> addr in h.seen && addr in h.answered && addr !in h.adds && addr !in h.named && addr !in h.masters)
    && (addr in h.notYetAdded ==> ServerOk(h, addr, h.notYetAdded[addr].server))
    && (addr in h.adds ==> addr in h.seen && addr in h.answered && h.complete)
    && (addr in h.contacts ==> addr in h.seen)
    && (addr in h.contacts <==> addr in h.answered || addr in h.silent)
    && !(addr in h.answered && addr in h.silent)
    && (addr in h.masters ==> addr in h.answered)
    && (addr in h.named ==> addr in h.addIfFound || addr in h.seen)
    && (addr in h.servers ==> h.servers[addr].addr == addr && h.servers[addr].serial < h.serial)
    && StaysOk(h, addr)
  }

  /** Nobody leaves the cluster but those that do not answer and those that others take out. */
  ghost predicate StaysOk(h: Shared, addr: Addr) {
    && (addr in h.servers ==> addr in h.known || addr in h.adds)
    && ((addr in h.known && addr !in h.silent) || addr in h.adds ==> addr in h.servers || addr in h.gone)
  }

  /** The object is the one the cluster has for its address, if it has one. */
  ghost predicate ServerOk(h: Shared, addr: Addr, server: Server) {
    server.addr == addr && server.serial < h.serial && (addr in h.servers ==> h.servers[addr] == server)
  }

  ghost predicate TaskOk(h: Shared, t: Task) {
    && (t.byMaster ==> h.complete)
    && (t.pc.Spawning? && t.pc.master ==> h.complete)
    && (t.pc.Resolving? ==> t.to == None)
    && (t.pc.First? ==> t.to == Some(t.pc.addr))
    && (t.byMaster && t.to.Some? && !t.pc.First? ==> t.to.value in h.named)
    && (HasServer(t.pc) ==> ServerOk(h, t.pc.addr, ServerOf(t.pc)))
    && (InCharge(t.pc) ==> t.pc.addr in h.seen && t.pc.addr !in h.notYetAdded && t.pc.addr !in h.adds)
    && (t.to.Some? && !t.pc.First? ==> t.to.value in h.seen)
    && (Early(t.pc) ==> t.pc.addr !in h.contacts)
    && (Early(t.pc) || t.pc.Second? ==> (t.pc.addr in h.named ==> t.pc.addr in h.addIfFound))
    && (t.pc.Second? ==> t.pc.addr in h.answered && (t.pc.pending.master <==> t.pc.addr in h.masters))
    && (Adds(t.pc) ==> t.pc.addr in h.answered && h.complete)
    && (t.pc.Dropping? ==> t.pc.server.addr in h.silent)
  }

  ghost predicate NoTwice(q: seq<Addr>) {
    forall i, j :: 0 <= i < j < |q| ==> q[i] != q[j]
  }

  /** No two goroutines are in charge of the same address. */
  ghost predicate Apart(t: Task, u: Task) {
    InCharge(t.pc) && InCharge(u.pc) ==> t.pc.addr != u.pc.addr
  }

  ghost predicate Inv(direct: bool, s: Sync) {
    && LogsOk(s.h)
    && (forall addr :: AddrOk(s.h, addr))
    && (forall i :: 0 <= i < |s.tasks| ==> TaskOk(s.h, s.tasks[i]))
    && (forall i, j :: 0 <= i < j < |s.tasks| ==> Apart(s.tasks[i], s.tasks[j]))
    && (forall addr :: addr in s.h.found ==> addr in s.h.seen || Waits(s, addr))
    && (forall addr :: addr in s.h.seen ==> Settled(s, addr))
    && (forall x :: x in s.h.promised ==> !direct && Kept(s, x))
  }

  /** A goroutine still has to be started for a name. */
  predicate Owes(pc: Pc, x: Name) {
    || ((pc.Second? || pc.Adding?) && pc.pending.master == x.byMaster && x.host in pc.hosts)
    || (pc.Spawning? && pc.master == x.byMaster && x.host in pc.hosts)
  }

  predicate Asked(t: Task, x: Name) {
    t.byMaster == x.byMaster && t.host == x.host
  }

  ghost predicate Kept(s: Sync, x: Name) {
    exists i :: 0 <= i < |s.tasks| && (Owes(s.tasks[i].pc, x) || Asked(s.tasks[i], x))
  }

  /** A goroutine has to do with a seen address. */
  predicate Charged(pc: Pc, addr: Addr) {
    (InCharge(pc) && pc.addr == addr) || (pc.Dropping? && pc.server.addr == addr)
  }

  predicate IsFirst(pc: Pc, addr: Addr) {
    pc == First(addr)
  }

  /** A goroutine is about to see an address. */
  ghost predicate Waits(s: Sync, addr: Addr) {
    exists i :: 0 <= i < |s.tasks| && IsFirst(s.tasks[i].pc, addr)
  }

  ghost predicate LogsOk(h: Shared) {
    !h.duplicate && NoTwice(h.contacts) && NoTwice(h.adds)
  }

  /** An address that is done with is added, pending, or did not answer and left the cluster. */
  ghost predicate Over(h: Shared, addr: Addr) {
    addr in h.adds || addr in h.notYetAdded || (addr in h.silent && addr !in h.servers)
  }

  ghost predicate Settled(s: Sync, addr: Addr) {
    Over(s.h, addr) || exists i :: 0 <= i < |s.tasks| && Charged(s.tasks[i].pc, addr)
  }

  // --- Every step keeps it ------------------------------------------------------------------

  lemma FirstAddr(h: Shared, t: Task, addr: Addr)
    requires t.pc.First? && TaskOk(h, t) && AddrOk(h, addr)
    ensures AddrOk(FirstSection(h, t.byMaster, t.pc.addr).h, addr)
  {
  }

  lemma SecondAddr(direct: bool, h: Shared, t: Task, addr: Addr)
    requires t.pc.Second? && TaskOk(h, t) && AddrOk(h, addr)
    ensures AddrOk(SecondSection(direct, h, t.pc.addr, t.pc.pending, t.pc.hosts).h, addr)
  {
  }

  lemma AddAddr(h: Shared, t: Task, addr: Addr)
    requires Adds(t.pc) && TaskOk(h, t) && AddrOk(h, addr)
    ensures AddrOk(AddServer(h, t.pc.addr, t.pc.pending.server), addr)
  {
  }

  lemma ContactAddr(direct: bool, h: Shared, t: Task, e: Event, addr: Addr)
    requires Early(t.pc) && TaskOk(h, t) && AddrOk(h, addr)
    ensures AddrOk(Do(direct, h, t, e).h, addr)
  {
  }

  lemma OtherAddr(direct: bool, h: Shared, t: Task, e: Event, addr: Addr)
    requires !HasAddr(t.pc) && TaskOk(h, t) && AddrOk(h, addr)
    ensures AddrOk(Do(direct, h, t, e).h, addr)
  {
    hide FirstSection, SecondSection, AddServer;
  }

  lemma AddrKeeps(direct: bool, h: Shared, t: Task, e: Event, addr: Addr)
    requires TaskOk(h, t) && AddrOk(h, addr)
    ensures AddrOk(Do(direct, h, t, e).h, addr)
  {
    hide FirstSection, SecondSection, AddServer, AddrOk, TaskOk;
    match t.pc {
      case First(_) => FirstAddr(h, t, addr);
      case Second(_, _, _) => SecondAddr(direct, h, t, addr);
      case Adding(_, _, _) => AddAddr(h, t, addr);
      case AddPending(_, _) => AddAddr(h, t, addr);
      case Looking(_) => ContactAddr(direct, h, t, e, addr);
      case Contacting(_, _) => ContactAddr(direct, h, t, e, addr);
      case _ => OtherAddr(direct, h, t, e, addr);
    }
  }

  lemma FirstOther(h: Shared, t: Task, u: Task)
    requires t.pc.First? && TaskOk(h, u)
    ensures TaskOk(FirstSection(h, t.byMaster, t.pc.addr).h, u)
  {
  }

  lemma SecondOther(direct: bool, h: Shared, t: Task, u: Task)
    requires t.pc.Second? && TaskOk(h, u) && Apart(t, u)
    ensures TaskOk(SecondSection(direct, h, t.pc.addr, t.pc.pending, t.pc.hosts).h, u)
  {
  }

  lemma AddOther(h: Shared, t: Task, u: Task)
    requires Adds(t.pc) && TaskOk(h, t) && TaskOk(h, u) && Apart(t, u)
    ensures TaskOk(AddServer(h, t.pc.addr, t.pc.pending.server), u)
  {
  }

  lemma EarlyOther(direct: bool, h: Shared, t: Task, e: Event, u: Task)
    requires Early(t.pc) && TaskOk(h, t) && TaskOk(h, u) && Apart(t, u)
    ensures TaskOk(Do(direct, h, t, e).h, u)
  {
    hide FirstSection, SecondSection, AddServer;
  }

  lemma PlainOther(direct: bool, h: Shared, t: Task, e: Event, u: Task)
    requires !HasAddr(t.pc) && TaskOk(h, t) && TaskOk(h, u)
    ensures TaskOk(Do(direct, h, t, e).h, u)
  {
    hide FirstSection, SecondSection, AddServer;
  }

  /** A step of one goroutine leaves what is known of another one true. */
  lemma OtherKeeps(direct: bool, h: Shared, t: Task, e: Event, u: Task)
    requires TaskOk(h, t) && TaskOk(h, u) && Apart(t, u)
    ensures TaskOk(Do(direct, h, t, e).h, u)
  {
    hide FirstSection, SecondSection, AddServer, TaskOk, Apart;
    match t.pc {
      case First(_) => FirstOther(h, t, u);
      case Second(_, _, _) => SecondOther(direct, h, t, u);
      case Adding(_, _, _) => AddOther(h, t, u);
      case AddPending(_, _) => AddOther(h, t, u);
      case Looking(_) => EarlyOther(direct, h, t, e, u);
      case Contacting(_, _) => EarlyOther(direct, h, t, e, u);
      case _ => PlainOther(direct, h, t, e, u);
    }
  }

  lemma FirstOwn(h: Shared, t: Task)
    requires t.pc.First? && TaskOk(h, t) && AddrOk(h, t.pc.addr)
    ensures var x := FirstSection(h, t.byMaster, t.pc.addr); TaskOk(x.h, After(t, x.pc))
  {
  }

  lemma SecondOwn(direct: bool, h: Shared, t: Task)
    requires t.pc.Second? && TaskOk(h, t) && AddrOk(h, t.pc.addr)
    ensures var x := SecondSection(direct, h, t.pc.addr, t.pc.pending, t.pc.hosts); TaskOk(x.h, After(t, x.pc))
  {
  }

  lemma AddOwn(direct: bool, h: Shared, t: Task, e: Event)
    requires Adds(t.pc) && TaskOk(h, t)
    ensures var x := Do(direct, h, t, e); TaskOk(x.h, After(t, x.pc))
  {
  }

  lemma PlainOwn(direct: bool, h: Shared, t: Task, e: Event)
    requires (Early(t.pc) || !HasAddr(t.pc)) && TaskOk(h, t) && (HasAddr(t.pc) ==> AddrOk(h, t.pc.addr))
    ensures var x := Do(direct, h, t, e); TaskOk(x.h, After(t, x.pc))
  {
    hide FirstSection, SecondSection, AddServer;
  }

  lemma OwnKeeps(direct: bool, h: Shared, t: Task, e: Event)
    requires TaskOk(h, t) && (HasAddr(t.pc) ==> AddrOk(h, t.pc.addr))
    ensures var x := Do(direct, h, t, e); TaskOk(x.h, After(t, x.pc))
  {
    hide FirstSection, SecondSection, AddServer, TaskOk, AddrOk;
    match t.pc {
      case First(_) => FirstOwn(h, t);
      case Second(_, _, _) => SecondOwn(direct, h, t);
      case Adding(_, _, _) => AddOwn(direct, h, t, e);
      case AddPending(_, _) => AddOwn(direct, h, t, e);
      case _ => PlainOwn(direct, h, t, e);
    }
  }

  predicate HasAddr(pc: Pc) {
    pc.First? || pc.Looking? || HasServer(pc)
  }

  /** Nobody gets into charge of an address that somebody else has. */
  lemma ApartKeeps(direct: bool, h: Shared, t: Task, e: Event, u: Task)
    requires TaskOk(h, u) && Apart(t, u)
    ensures Apart(After(t, Do(direct, h, t, e).pc), u) && Apart(u, After(t, Do(direct, h, t, e).pc))
  {
  }

  lemma SpawnedOk(direct: bool, h: Shared, t: Task, e: Event)
    requires TaskOk(h, t)
    ensures var x := Do(direct, h, t, e);
      forall u :: u in x.spawned ==> TaskOk(x.h, u) && u.pc == Resolving
  {
  }

  lemma LogsKeep(direct: bool, h: Shared, t: Task, e: Event)
    requires TaskOk(h, t) && LogsOk(h)
    ensures LogsOk(Do(direct, h, t, e).h)
  {
  }

  ghost predicate Placed(h: Shared, pc: Pc, addr: Addr) {
    Over(h, addr) || Charged(pc, addr)
  }

  lemma PlacedKeeps(direct: bool, h: Shared, t: Task, e: Event, addr: Addr)
    requires TaskOk(h, t) && AddrOk(h, addr)
    requires !Do(direct, h, t, e).h.duplicate && addr in Do(direct, h, t, e).h.seen
    requires addr in h.seen ==> Placed(h, t.pc, addr)
    ensures var x := Do(direct, h, t, e); Placed(x.h, x.pc, addr)
  {
    hide SecondSection, FirstSection;
    match t.pc {
      case First(_) => FirstPlaced(h, t, addr);
      case Second(_, _, _) => SecondPlaced(direct, h, t, addr);
      case _ =>
    }
  }

  lemma FirstPlaced(h: Shared, t: Task, addr: Addr)
    requires t.pc.First? && addr in FirstSection(h, t.byMaster, t.pc.addr).h.seen
    requires addr in h.seen ==> Placed(h, t.pc, addr)
    ensures var x := FirstSection(h, t.byMaster, t.pc.addr); Placed(x.h, x.pc, addr)
  {
  }

  lemma SecondPlaced(direct: bool, h: Shared, t: Task, addr: Addr)
    requires t.pc.Second? && addr in SecondSection(direct, h, t.pc.addr, t.pc.pending, t.pc.hosts).h.seen
    requires addr in h.seen ==> Placed(h, t.pc, addr)
    ensures var x := SecondSection(direct, h, t.pc.addr, t.pc.pending, t.pc.hosts); Placed(x.h, x.pc, addr)
  {
  }

  lemma WaitsKeeps(direct: bool, s: Sync, i: nat, e: Event, addr: Addr)
    requires i < |s.tasks| && addr in Step(direct, s, i, e).h.found && AddrOk(s.h, addr)
    requires addr in s.h.found ==> addr in s.h.seen || Waits(s, addr)
    ensures addr in Step(direct, s, i, e).h.seen || Waits(Step(direct, s, i, e), addr)
  {
    hide Do;
    var s', t, d := Step(direct, s, i, e), s.tasks[i], Do(direct, s.h, s.tasks[i], e);
    assert s'.tasks[i] == After(t, d.pc);
    SeenKeeps(direct, s.h, t, e, addr);
    FoundKeeps(direct, s.h, t, e, addr);
    if addr in s.h.found && addr !in s.h.seen {
      var k :| 0 <= k < |s.tasks| && IsFirst(s.tasks[k].pc, addr);
      assert k != i ==> s'.tasks[k] == s.tasks[k];
    }
  }

  lemma SeenKeeps(direct: bool, h: Shared, t: Task, e: Event, addr: Addr)
    requires addr in h.notYetAdded ==> addr in h.seen
    ensures addr in h.seen || IsFirst(t.pc, addr) ==> addr in Do(direct, h, t, e).h.seen
  {
  }

  lemma FoundKeeps(direct: bool, h: Shared, t: Task, e: Event, addr: Addr)
    ensures var d := Do(direct, h, t, e); addr in d.h.found && addr !in h.found ==> IsFirst(d.pc, addr)
  {
  }

  lemma KeptKeeps(direct: bool, s: Sync, i: nat, e: Event, x: Name)
    requires i < |s.tasks| && x in Step(direct, s, i, e).h.promised
    requires x in s.h.promised ==> !direct && Kept(s, x)
    ensures !direct && Kept(Step(direct, s, i, e), x)
  {
    hide Do;
    var s', t, d := Step(direct, s, i, e), s.tasks[i], Do(direct, s.h, s.tasks[i], e);
    assert s'.tasks[i] == After(t, d.pc);
    OwesKeeps(direct, s.h, t, e, x);
    if x in s.h.promised {
      var k :| 0 <= k < |s.tasks| && (Owes(s.tasks[k].pc, x) || Asked(s.tasks[k], x));
      if k != i {
        assert s'.tasks[k] == s.tasks[k];
      } else if Asked(t, x) {
        assert Asked(s'.tasks[i], x);
      } else if !Owes(d.pc, x) {
        assert s'.tasks[|s.tasks|] == d.spawned[0];
      }
    }
  }

  lemma OwesKeeps(direct: bool, h: Shared, t: Task, e: Event, x: Name)
    ensures var d := Do(direct, h, t, e);
      && (!direct && Owes(t.pc, x) ==> Owes(d.pc, x) || (d.spawned != [] && Asked(d.spawned[0], x)))
      && (x in d.h.promised && x !in h.promised ==> Owes(d.pc, x))
      && (direct ==> d.h.promised == h.promised)
  {
  }

  /** What was placed with another goroutine stays there. */
  lemma SettledKeeps(direct: bool, s: Sync, i: nat, e: Event, addr: Addr)
    requires i < |s.tasks| && TaskOk(s.h, s.tasks[i]) && AddrOk(s.h, addr)
    requires !Step(direct, s, i, e).h.duplicate && addr in Step(direct, s, i, e).h.seen
    requires addr in s.h.seen ==> Settled(s, addr)
    ensures Settled(Step(direct, s, i, e), addr)
  {
    hide Do, TaskOk, AddrOk, Over;
    var s', x := Step(direct, s, i, e), Do(direct, s.h, s.tasks[i], e);
    if addr in s.h.seen && !Placed(s.h, s.tasks[i].pc, addr) {
      var k :| 0 <= k < |s.tasks| && Charged(s.tasks[k].pc, addr);
      assert s'.tasks[k] == s.tasks[k];
    } else {
      PlacedKeeps(direct, s.h, s.tasks[i], e, addr);
      assert s'.tasks[i].pc == x.pc;
    }
  }

  lemma StepKeeps(direct: bool, s: Sync, i: nat, e: Event)
    requires Inv(direct, s) && i < |s.tasks|
    ensures Inv(direct, Step(direct, s, i, e))
  {
    hide AddrOk, TaskOk, Apart, Settled, Waits, Kept, Do, LogsOk, HasAddr;
    var s', t := Step(direct, s, i, e), s.tasks[i];
    assert TaskOk(s.h, t);
    LogsKeep(direct, s.h, t, e);
    forall addr ensures AddrOk(s'.h, addr) { AddrKeeps(direct, s.h, t, e, addr); }
    NotDuplicate(s'.h);
    forall addr | addr in s'.h.found ensures addr in s'.h.seen || Waits(s', addr) { WaitsKeeps(direct, s, i, e, addr); }
    forall addr | addr in s'.h.seen ensures Settled(s', addr) { SettledKeeps(direct, s, i, e, addr); }
    forall x | x in s'.h.promised ensures !direct && Kept(s', x) { KeptKeeps(direct, s, i, e, x); }
    forall j | 0 <= j < |s'.tasks| ensures TaskOk(s'.h, s'.tasks[j]) {
      TaskKeeps(direct, s, i, e, j);
    }
    forall j, k | 0 <= j < k < |s'.tasks| ensures Apart(s'.tasks[j], s'.tasks[k]) {
      PairKeeps(direct, s, i, e, j, k);
    }
  }

  lemma NotDuplicate(h: Shared)
    requires LogsOk(h)
    ensures !h.duplicate
  {
  }

  lemma TaskKeeps(direct: bool, s: Sync, i: nat, e: Event, j: nat)
    requires Inv(direct, s) && i < |s.tasks| && j < |Step(direct, s, i, e).tasks|
    ensures TaskOk(Step(direct, s, i, e).h, Step(direct, s, i, e).tasks[j])
  {
    hide AddrOk, TaskOk, Apart, Settled, Do, LogsOk;
    var t := s.tasks[i];
    assert TaskOk(s.h, t);
    SpawnedOk(direct, s.h, t, e);
    if j == i {
      OwnKeeps(direct, s.h, t, e);
    } else if j < |s.tasks| {
      ApartEither(direct, s, i, j);
      OtherKeeps(direct, s.h, t, e, s.tasks[j]);
    }
  }

  lemma ApartEither(direct: bool, s: Sync, i: nat, j: nat)
    requires Inv(direct, s) && i < |s.tasks| && j < |s.tasks| && i != j
    ensures Apart(s.tasks[i], s.tasks[j])
  {
    if i < j { assert Apart(s.tasks[i], s.tasks[j]); } else { assert Apart(s.tasks[j], s.tasks[i]); }
  }

  lemma PairKeeps(direct: bool, s: Sync, i: nat, e: Event, j: nat, k: nat)
    requires Inv(direct, s) && i < |s.tasks| && j < k < |Step(direct, s, i, e).tasks|
    ensures Apart(Step(direct, s, i, e).tasks[j], Step(direct, s, i, e).tasks[k])
  {
    hide Do, AddrOk, TaskOk, Settled, LogsOk;
    assert TaskOk(s.h, s.tasks[i]);
    SpawnedOk(direct, s.h, s.tasks[i], e);
    if k < |s.tasks| {
      ApartEither(direct, s, j, k);
      ApartEither(direct, s, k, j);
      if j == i { ApartKeeps(direct, s.h, s.tasks[i], e, s.tasks[k]); }
      if k == i { ApartKeeps(direct, s.h, s.tasks[i], e, s.tasks[j]); }
    }
  }

  // --- Whole runs ---------------------------------------------------------------------------

  lemma RemoveKeeps(direct: bool, s: Sync, addr: Addr)
    requires Inv(direct, s)
    ensures Inv(direct, s.(h := RemoveOther(s.h, addr)))
  {
    var s' := s.(h := RemoveOther(s.h, addr));
    forall a ensures AddrOk(s'.h, a) { assert AddrOk(s.h, a); }
    forall j | 0 <= j < |s'.tasks| ensures TaskOk(s'.h, s'.tasks[j]) { assert TaskOk(s.h, s.tasks[j]); }
    forall a | a in s'.h.found ensures a in s'.h.seen || Waits(s', a) { assert a in s.h.seen || Waits(s, a); }
    forall a | a in s'.h.seen ensures Settled(s', a) { assert Settled(s, a); }
    forall x | x in s'.h.promised ensures !direct && Kept(s', x) { assert Kept(s, x); }
  }

  lemma {:induction false} RunInv(direct: bool, run: seq<Sync>, i: nat)
    requires IsRun(direct, run) && i < |run|
    ensures Inv(direct, run[i])
  {
    hide Inv;
    if i == 0 {
      InitInv(direct, run[0]);
    } else {
      RunInv(direct, run, i - 1);
      assert Next(direct, run[i - 1], run[i - 1 + 1]);
      NextKeeps(direct, run[i - 1], run[i]);
    }
  }

  lemma NextKeeps(direct: bool, s: Sync, s': Sync)
    requires Inv(direct, s) && Next(direct, s, s')
    ensures Inv(direct, s')
  {
    hide Inv, Step, RemoveOther;
    if i: nat, e :| i < |s.tasks| && s' == Step(direct, s, i, e) {
      StepKeeps(direct, s, i, e);
    } else {
      var addr: Addr :| s' == s.(h := RemoveOther(s.h, addr));
      RemoveKeeps(direct, s, addr);
    }
  }

  lemma InitInv(direct: bool, s: Sync)
    requires Init(s)
    ensures Inv(direct, s)
  {
  }

  /** In every interleaving each resolved address is contacted at most once and each server added
      at most once, and adding never finds another object for the same address. */
  lemma OnceEach(direct: bool, run: seq<Sync>, i: nat)
    requires IsRun(direct, run) && i < |run|
    ensures NoTwice(run[i].h.contacts) && NoTwice(run[i].h.adds) && !run[i].h.duplicate
  {
    RunInv(direct, run, i);
  }

  /** All goroutines have ended. */
  ghost predicate Quiescent(s: Sync) {
    forall i :: 0 <= i < |s.tasks| ==> s.tasks[i].pc == Done
  }

  /** A goroutine ran for the name. */
  ghost predicate RanFor(s: Sync, x: Name) {
    exists j :: 0 <= j < |s.tasks| && Asked(s.tasks[j], x)
  }

  /** The server that a goroutine started by a master found was added, if it answered. */
  ghost predicate NotDropped(h: Shared, t: Task) {
    t.byMaster && t.to.Some? && t.to.value in h.answered ==> t.to.value in h.adds && t.to.value !in h.notYetAdded
  }

  /** When all goroutines have ended, one ran for every name that any server gave, master or not,
      unless the synchronisation is direct. */
  lemma NamesFollowed(direct: bool, run: seq<Sync>, i: nat, x: Name)
    requires IsRun(direct, run) && i < |run| && Quiescent(run[i]) && x in run[i].h.promised
    ensures !direct && RanFor(run[i], x)
  {
    var s := run[i];
    RunInv(direct, run, i);
    assert Kept(s, x);
    var j :| 0 <= j < |s.tasks| && (Owes(s.tasks[j].pc, x) || Asked(s.tasks[j], x));
    assert s.tasks[j].pc == Done && Asked(s.tasks[j], x);
  }

  /** How it ends for an address. */
  ghost predicate AddrEnds(h: Shared, a: Addr) {
    && (a in h.found ==> a in h.contacts)
    && (a in h.contacts <==> a in h.answered || a in h.silent)
    && (a in h.answered <==> a in h.adds || a in h.notYetAdded)
    && (a in h.adds ==> a !in h.notYetAdded)
    && (a in h.masters ==> a in h.adds)
    && (a in h.silent ==> a !in h.answered && a !in h.servers)
    && (a in h.servers ==> a in h.known || a in h.adds)
    && ((a in h.known && a !in h.silent) || a in h.adds ==> a in h.servers || a in h.gone)
  }

  /** When all goroutines have ended, every address that a name resolved to was contacted. Those that
      answered were either added or are not yet added, and the masters were added; the others are out
      of the cluster. Whatever server a goroutine for a name from a master found was added if it
      answered, so it is not dropped. Nobody else left the cluster, unless others took it out. */
  lemma NamedServersAdded(direct: bool, run: seq<Sync>, i: nat)
    requires IsRun(direct, run) && i < |run| && Quiescent(run[i])
    ensures var h := run[i].h;
      && (forall a :: AddrEnds(h, a))
      && (forall j :: 0 <= j < |run[i].tasks| ==> NotDropped(h, run[i].tasks[j]))
  {
    var s := run[i];
    RunInv(direct, run, i);
    forall a ensures AddrEnds(s.h, a) {
      assert AddrOk(s.h, a);
      if a in s.h.found { assert a in s.h.seen || Waits(s, a); }
      if a in s.h.seen { assert Settled(s, a); }
    }
    forall j | 0 <= j < |s.tasks| ensures NotDropped(s.h, s.tasks[j]) {
      assert TaskOk(s.h, s.tasks[j]) && s.tasks[j].pc == Done;
      if s.tasks[j].to.Some? { assert AddrOk(s.h, s.tasks[j].to.value) && AddrEnds(s.h, s.tasks[j].to.value); }
    }
  }

  // --- Every synchronisation can end --------------------------------------------------------

  /** How many steps a goroutine and those it starts may still take, if nobody answers any more. */
  function Weight(pc: Pc): nat {
    match pc
    case Resolving => 6
    case First(_) => 5
    case Looking(_) => 4
    case Contacting(_, _) => 3
    case Dropping(_) => 1
    case AddPending(_, _) => 1
    case Second(_, _, hosts) => 8 * |hosts| + 3
    case Adding(_, _, hosts) => 8 * |hosts| + 2
    case Spawning(_, hosts) => 8 * |hosts| + 1
    case Done => 0
  }

  ghost function Total(tasks: seq<Task>): nat {
    if tasks == [] then 0 else Weight(tasks[0].pc) + Total(tasks[1..])
  }

  lemma {:induction false} TotalOf(tasks: seq<Task>, i: nat, t: Task, more: seq<Task>)
    requires i < |tasks|
    ensures Total(tasks[i := t] + more) == Total(tasks) - Weight(tasks[i].pc) + Weight(t.pc) + Total(more)
    ensures Total(tasks) >= Weight(tasks[i].pc)
  {
    var after := tasks[i := t] + more;
    if i > 0 {
      TotalOf(tasks[1..], i - 1, t, more);
      assert after[1..] == tasks[1..][i - 1 := t] + more;
    } else {
      assert after[1..] == tasks[1..] + more;
      TotalMore(tasks[1..], more);
    }
  }

  lemma {:induction false} TotalMore(tasks: seq<Task>, more: seq<Task>)
    ensures Total(tasks + more) == Total(tasks) + Total(more)
  {
    if tasks != [] {
      TotalMore(tasks[1..], more);
      assert (tasks + more)[1..] == tasks[1..] + more;
    } else {
      assert tasks + more == more;
    }
  }

  /** A name does not resolve, or a server does not answer. */
  function Failure(pc: Pc): Event {
    if pc.Resolving? then NotResolved else if pc.Contacting? then NoAnswer else Run
  }

  lemma Lighter(direct: bool, h: Shared, t: Task)
    requires t.pc != Done
    ensures var x := Do(direct, h, t, Failure(t.pc)); Weight(x.pc) + Total(x.spawned) < Weight(t.pc)
  {
    hide AddServer;
    var x := Do(direct, h, t, Failure(t.pc));
    assert x.spawned != [] ==> x.spawned[1..] == [];
  }

  /** Every run can be continued until all goroutines have ended, if need be by failures alone. */
  lemma {:induction false} CanEnd(direct: bool, run: seq<Sync>) returns (more: seq<Sync>)
    requires IsRun(direct, run)
    ensures run <= more && IsRun(direct, more) && Quiescent(more[|more| - 1])
    decreases Total(run[|run| - 1].tasks)
  {
    hide Do;
    var s := run[|run| - 1];
    if Quiescent(s) {
      more := run;
    } else {
      var i: nat :| i < |s.tasks| && s.tasks[i].pc != Done;
      var e := Failure(s.tasks[i].pc);
      var x := Do(direct, s.h, s.tasks[i], e);
      Lighter(direct, s.h, s.tasks[i]);
      TotalOf(s.tasks, i, After(s.tasks[i], x.pc), x.spawned);
      LongerRun(direct, run, i, e);
      more := CanEnd(direct, run + [Step(direct, s, i, e)]);
    }
  }

  lemma LongerRun(direct: bool, run: seq<Sync>, i: nat, e: Event)
    requires IsRun(direct, run) && i < |run[|run| - 1].tasks|
    ensures IsRun(direct, run + [Step(direct, run[|run| - 1], i, e)])
  {
    hide Init, Step;
    var s', longer := Step(direct, run[|run| - 1], i, e), run + [Step(direct, run[|run| - 1], i, e)];
    assert Next(direct, run[|run| - 1], s');
    forall j | 0 <= j < |longer| - 1 ensures Next(direct, longer[j], longer[j + 1]) {
      assert j < |run| - 1 ==> Next(direct, run[j], run[j + 1]);
    }
  }

  // --- Why a server was added ---------------------------------------------------------------

  ghost predicate Reason(direct: bool, h: Shared, addr: Addr) {
    direct || addr in h.masters || addr in h.named
  }

  ghost predicate ReasonFor(direct: bool, h: Shared, t: Task) {
    && (Adds(t.pc) ==> Reason(direct, h, t.pc.addr))
    && (t.pc.Second? && t.pc.pending.master ==> t.pc.addr in h.masters)
  }

  ghost predicate Reasonable(direct: bool, h: Shared) {
    && h.addIfFound <= h.named
    && (direct ==> h.notYetAdded == map[])
    && (forall a :: a in h.adds ==> Reason(direct, h, a))
  }

  ghost predicate Reasons(direct: bool, s: Sync) {
    && Reasonable(direct, s.h)
    && (forall i :: 0 <= i < |s.tasks| ==> ReasonFor(direct, s.h, s.tasks[i]))
    && (s.h.complete ==> s.h.adds != [] || exists i :: 0 <= i < |s.tasks| && Adds(s.tasks[i].pc))
  }

  /** What a goroutine's step does to the reasons. */
  ghost predicate Sound(direct: bool, h: Shared, t: Task, x: Effect) {
    && Reasonable(direct, x.h) && ReasonFor(direct, x.h, After(t, x.pc)) && h.masters <= x.h.masters && h.named <= x.h.named
    && (x.h.complete ==> h.complete || Adds(x.pc)) && (h.adds != [] ==> x.h.adds != [])
    && (Adds(t.pc) && !x.h.duplicate ==> x.h.adds != [])
  }

  lemma FirstReason(direct: bool, h: Shared, t: Task)
    requires t.pc.First? && Reasonable(direct, h)
    ensures Sound(direct, h, t, FirstSection(h, t.byMaster, t.pc.addr))
  {
  }

  lemma SecondReason(direct: bool, h: Shared, t: Task)
    requires t.pc.Second? && Reasonable(direct, h) && ReasonFor(direct, h, t)
    ensures Sound(direct, h, t, SecondSection(direct, h, t.pc.addr, t.pc.pending, t.pc.hosts))
  {
  }

  lemma AddReason(direct: bool, h: Shared, t: Task, e: Event)
    requires Adds(t.pc) && Reasonable(direct, h) && ReasonFor(direct, h, t)
    ensures Sound(direct, h, t, Do(direct, h, t, e))
  {
    assert direct ==> h.notYetAdded == map[];
  }

  lemma HeardReason(direct: bool, h: Shared, pc: Pc, e: Event)
    requires Reasonable(direct, h)
    ensures var h' := Heard(direct, h, pc, e);
      && Reasonable(direct, h') && h.masters <= h'.masters && h.named == h'.named
      && h'.complete == h.complete && h'.adds == h.adds
      && (pc.Contacting? && e.Answers? && e.master ==> pc.addr in h'.masters)
  {
  }

  lemma PlainReason(direct: bool, h: Shared, t: Task, e: Event)
    requires !t.pc.First? && !t.pc.Second? && !Adds(t.pc) && Reasonable(direct, h)
    ensures Sound(direct, h, t, Do(direct, h, t, e))
  {
    hide FirstSection, SecondSection, AddServer, Heard;
    HeardReason(direct, h, t.pc, e);
  }

  lemma OwnReason(direct: bool, h: Shared, t: Task, e: Event)
    requires Reasonable(direct, h) && ReasonFor(direct, h, t)
    ensures Sound(direct, h, t, Do(direct, h, t, e))
  {
    hide FirstSection, SecondSection, Sound, Reasonable, ReasonFor;
    match t.pc {
      case First(_) => FirstReason(direct, h, t);
      case Second(_, _, _) => SecondReason(direct, h, t);
      case Adding(_, _, _) => AddReason(direct, h, t, e);
      case AddPending(_, _) => AddReason(direct, h, t, e);
      case _ => PlainReason(direct, h, t, e);
    }
  }

  lemma ReasonsKeep(direct: bool, s: Sync, i: nat, e: Event)
    requires Reasons(direct, s) && i < |s.tasks| && !Step(direct, s, i, e).h.duplicate
    ensures Reasons(direct, Step(direct, s, i, e))
  {
    hide Do, Reasonable, Reason;
    var s', t, x := Step(direct, s, i, e), s.tasks[i], Do(direct, s.h, s.tasks[i], e);
    OwnReason(direct, s.h, t, e);
    SpawnedPlain(direct, s.h, t, e);
    forall j | 0 <= j < |s'.tasks| ensures ReasonFor(direct, s'.h, s'.tasks[j]) {
      if j != i && j < |s.tasks| {
        ReasonStays(direct, s.h, s'.h, s.tasks[j]);
      }
    }
    if s'.h.complete && s'.h.adds == [] {
      if s.h.complete {
        var k :| 0 <= k < |s.tasks| && Adds(s.tasks[k].pc);
        assert k != i && s'.tasks[k] == s.tasks[k];
      } else {
        assert Adds(s'.tasks[i].pc);
      }
    }
  }

  lemma SpawnedPlain(direct: bool, h: Shared, t: Task, e: Event)
    ensures forall u :: u in Do(direct, h, t, e).spawned ==> u.pc == Resolving
  {
  }

  lemma ReasonStays(direct: bool, h: Shared, h': Shared, u: Task)
    requires h.masters <= h'.masters && h.named <= h'.named && ReasonFor(direct, h, u)
    ensures ReasonFor(direct, h', u)
  {
  }

  lemma {:induction false} RunReasons(direct: bool, run: seq<Sync>, i: nat)
    requires IsRun(direct, run) && i < |run|
    ensures Reasons(direct, run[i])
  {
    hide Step, Inv, Init;
    if i == 0 {
      InitReasons(direct, run[0]);
    } else {
      RunReasons(direct, run, i - 1);
      OnceEach(direct, run, i);
      var s, s' := run[i - 1], run[i];
      assert Next(direct, s, run[i - 1 + 1]);
      if j: nat, e :| j < |s.tasks| && s' == Step(direct, s, j, e) {
        ReasonsKeep(direct, s, j, e);
      } else {
        var addr: Addr :| s' == s.(h := RemoveOther(s.h, addr));
        RemovedReasons(direct, s, addr);
      }
    }
  }

  lemma InitReasons(direct: bool, s: Sync)
    requires Init(s)
    ensures Reasons(direct, s)
  {
  }

  lemma RemovedReasons(direct: bool, s: Sync, addr: Addr)
    requires Reasons(direct, s)
    ensures Reasons(direct, s.(h := RemoveOther(s.h, addr)))
  {
    var h, h' := s.h, RemoveOther(s.h, addr);
    forall i | 0 <= i < |s.tasks| ensures ReasonFor(direct, h', s.tasks[i]) { ReasonStays(direct, h, h', s.tasks[i]); }
    forall a | a in h'.adds ensures Reason(direct, h', a) { assert Reason(direct, h, a); }
  }

  /** When all goroutines have ended, the servers that were added are exactly those that answered and
      are masters or named by one, or all that answered if the synchronisation is direct. It is
      complete exactly if there is such a server. */
  lemma AddedExactly(direct: bool, run: seq<Sync>, i: nat, a: Addr)
    requires IsRun(direct, run) && i < |run| && Quiescent(run[i])
    ensures var h := run[i].h;
      && (a in h.adds <==> a in h.answered && (direct || a in h.masters || a in h.named))
      && (h.complete <==> h.adds != [])
  {
    var s := run[i];
    var h := s.h;
    RunInv(direct, run, i);
    RunReasons(direct, run, i);
    NamedServersAdded(direct, run, i);
    assert AddrOk(h, a) && AddrEnds(h, a);
    if h.adds != [] { assert AddrOk(h, h.adds[0]); }
    assert a in h.adds ==> Reason(direct, h, a);
  }

  // --- The servers left over ----------------------------------------------------------------

  /** The end of the synchronisation: the addresses still to be dealt with, and those that others
      took out of the cluster meanwhile. */
  datatype Finish = Finish(h: Shared, left: set<Addr>, gone: set<Addr>)

  /** What is done with a server that was not added: after a complete synchronisation it leaves the
      cluster; after a partial one its info is updated, if the cluster knows it. */
  function FinishOne(h: Shared, addr: Addr): Shared
    requires addr in h.notYetAdded
  {
    var server := h.notYetAdded[addr].server;
    if h.complete then h.(servers := h.servers - {server.addr})
    else if server.addr in h.servers && h.servers[server.addr] != server then h.(duplicate := true)
    else h
  }

  /** One server is dealt with, or somebody else takes one out of the cluster. */
  ghost predicate FinishNext(f: Finish, f': Finish) {
    || (exists addr: Addr :: addr in f.left && addr in f.h.notYetAdded
          && f' == Finish(FinishOne(f.h, addr), f.left - {addr}, f.gone))
    || (exists addr: Addr :: f' == Finish(RemoveOther(f.h, addr), f.left, f.gone + {addr}))
  }

  ghost predicate IsFinish(h: Shared, fin: seq<Finish>) {
    && fin != [] && fin[0] == Finish(h, h.notYetAdded.Keys, {})
    && forall j :: 0 <= j < |fin| - 1 ==> FinishNext(fin[j], fin[j + 1])
  }

  /** A server is still there unless it was dealt with in a complete synchronisation, or taken out. */
  ghost predicate FinishInv(h: Shared, f: Finish) {
    && f.left <= h.notYetAdded.Keys
    && f.h == h.(servers := f.h.servers, gone := f.h.gone)
    && f.h.servers == map addr | addr in h.servers && addr !in f.gone
                                 && !(h.complete && addr in h.notYetAdded && addr !in f.left) :: h.servers[addr]
  }

  /** What the goroutines leave for the end. */
  ghost predicate Handed(h: Shared) {
    !h.duplicate && forall addr :: addr in h.notYetAdded ==>
      h.notYetAdded[addr].server.addr == addr && (addr in h.servers ==> h.servers[addr] == h.notYetAdded[addr].server)
  }

  lemma FinishKeeps(h: Shared, f: Finish, f': Finish)
    requires Handed(h) && FinishInv(h, f) && FinishNext(f, f')
    ensures FinishInv(h, f')
  {
  }

  lemma {:induction false} FinishRunInv(h: Shared, fin: seq<Finish>, j: nat)
    requires Handed(h) && IsFinish(h, fin) && j < |fin|
    ensures FinishInv(h, fin[j])
  {
    hide FinishNext;
    if j > 0 {
      FinishRunInv(h, fin, j - 1);
      assert FinishNext(fin[j - 1], fin[j - 1 + 1]);
      FinishKeeps(h, fin[j - 1], fin[j]);
    }
  }

  /** Dealing with the servers left over, one by one and while others remove servers, never panics
      and takes nobody out that was added. After a complete synchronisation none of them stays in the
      cluster. A partial one, which reached no master, added nobody and takes nobody out. */
  lemma FinishingIsSafe(direct: bool, run: seq<Sync>, i: nat, fin: seq<Finish>, j: nat)
    requires IsRun(direct, run) && i < |run| && Quiescent(run[i]) && IsFinish(run[i].h, fin) && j < |fin|
    ensures var h, f := run[i].h, fin[j];
      && !f.h.duplicate && FinishInv(h, f)
      && (forall a :: a in h.adds && a in h.servers ==> a in f.h.servers || a in f.gone)
      && (h.complete && f.left == {} ==> forall a :: a in h.notYetAdded ==> a !in f.h.servers)
      && (!h.complete ==> h.adds == [] && h.masters == {} && f.h.servers == h.servers - f.gone)
  {
    hide FinishNext;
    var h := run[i].h;
    RunInv(direct, run, i);
    NamedServersAdded(direct, run, i);
    forall a ensures a in h.adds ==> a !in h.notYetAdded && h.complete
      ensures a in h.masters ==> h.complete
      ensures a in h.notYetAdded ==>
        h.notYetAdded[a].server.addr == a && (a in h.servers ==> h.servers[a] == h.notYetAdded[a].server)
    {
      assert AddrOk(h, a) && AddrEnds(h, a);
    }
    if h.adds != [] { assert h.adds[0] in h.adds && h.complete; }
    FinishRunInv(h, fin, j);
  }
}
