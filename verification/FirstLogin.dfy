/** The first-login race: any number of GetOrCreateHumanActor calls interleaved
    statement by statement, with database faults and agents being created. */
module FirstLogin {
  import opened Bytes
  import opened HumanRepo

  datatype Pc =
    | AtProbe
    | AtRole(actorId: Text)
    | AtRead(actorId: Text)
    | AtCreate(newId: Text)
    | AtReprobe
    | Ended(outcome: Outcome)

  datatype Proc = Proc(req: Request, pc: Pc)

  datatype Event =
    | Call(pid: nat, req: Request)
    | Advance(pid: nat, freshId: Text)
    | Fault(pid: nat)
    | NewAgent(id: Text, name: Text)

  /** used are the UUIDs generated so far. */
  datatype System = System(db: Db, procs: map<nat, Proc>, used: set<Text>)

  function Step(s: System, e: Event): System {
    match e
    case Call(pid, req) => if pid in s.procs then s else s.(procs := s.procs[pid := Proc(req, AtProbe)])
    case Advance(pid, freshId) => if pid in s.procs then Execute(s, pid, freshId) else s
    case Fault(pid) =>
      if pid in s.procs && !s.procs[pid].pc.Ended? then Goto(s, pid, Ended(Failed(DbError))) else s
    case NewAgent(id, name) =>
      (match InsertActor(s.db, Actor(id, name, Agent))
       case None => s.(used := s.used + {id})
       case Some(d) => s.(db := d, used := s.used + {id}))
  }

  function Goto(s: System, pid: nat, pc: Pc): System
    requires pid in s.procs
  {
    s.(procs := s.procs[pid := s.procs[pid].(pc := pc)])
  }

  /** The next statement of pid's call. */
  function Execute(s: System, pid: nat, freshId: Text): System
    requires pid in s.procs
  {
    var req := s.procs[pid].req;
    match s.procs[pid].pc
    case AtProbe =>
      (match FindIdentity(s.db, req.subject)
       case Some(i) => Goto(s, pid, if i.role != req.role then AtRole(i.actorId) else AtRead(i.actorId))
       case None => Goto(s, pid, AtCreate(freshId)).(used := s.used + {freshId}))
    case AtRole(id) => Goto(s, pid, AtRead(id)).(db := SetRole(s.db, id, req.role))
    case AtRead(id) => Goto(s, pid, Ended(ReadActor(s.db, id)))
    case AtCreate(newId) =>
      (match CreateTx(s.db, req, newId)
       case Won(d) => Goto(s, pid, AtRead(newId)).(db := d)
       case Lost => Goto(s, pid, AtReprobe)
       case RolledBack => Goto(s, pid, Ended(Failed(NameConflict))))
    case AtReprobe =>
      (match FindIdentity(s.db, req.subject)
       case Some(i) => Goto(s, pid, AtRead(i.actorId))
       case None => Goto(s, pid, Ended(Failed(NotFound))))
    case Ended(_) => s
  }

  function Run(es: seq<Event>): System {
    if es == [] then System(Db([], []), map[], {}) else Step(Run(es[..|es| - 1]), es[|es| - 1])
  }

  /** A UUID is never generated twice. */
  ghost predicate FreshIds(s: System, e: Event) {
    match e
    case Advance(pid, freshId) => pid in s.procs && s.procs[pid].pc.AtProbe? ==> freshId !in s.used
    case NewAgent(id, _) => id !in s.used
    case _ => true
  }

  ghost predicate GoodRun(es: seq<Event>) {
    es == [] || (GoodRun(es[..|es| - 1]) && FreshIds(Run(es[..|es| - 1]), es[|es| - 1]))
  }

  // --------------------------------------------------------------- invariant

  ghost predicate Linked(db: Db, subject: Text, actorId: Text) {
    exists i :: 0 <= i < |db.identities| && db.identities[i].subject == subject && db.identities[i].actorId == actorId
  }

  ghost predicate Known(db: Db, subject: Text) {
    exists i :: 0 <= i < |db.identities| && db.identities[i].subject == subject
  }

  ghost predicate HasActor(db: Db, id: Text, kind: Kind) {
    exists j :: 0 <= j < |db.actors| && db.actors[j].id == id && db.actors[j].kind == kind
  }

  /** Each subject has at most one identity and distinct subjects distinct
      actors; actor ids and names are unique. */
  ghost predicate Unique(db: Db) {
    && (forall i, j :: 0 <= i < j < |db.identities| ==>
          db.identities[i].subject != db.identities[j].subject && db.identities[i].actorId != db.identities[j].actorId)
    && (forall i, j :: 0 <= i < j < |db.actors| ==>
          db.actors[i].id != db.actors[j].id && db.actors[i].name != db.actors[j].name)
  }

  /** Every identity points to a human actor, every human actor has one. */
  ghost predicate Matched(db: Db) {
    && (forall i :: 0 <= i < |db.identities| ==> HasActor(db, db.identities[i].actorId, Human))
    && (forall j :: 0 <= j < |db.actors| && db.actors[j].kind.Human? ==>
          exists i :: 0 <= i < |db.identities| && db.identities[i].actorId == db.actors[j].id)
  }

  ghost predicate AllUsed(db: Db, used: set<Text>) {
    && (forall i :: 0 <= i < |db.identities| ==> db.identities[i].actorId in used)
    && (forall j :: 0 <= j < |db.actors| ==> db.actors[j].id in used)
  }

  ghost predicate DbOk(db: Db, used: set<Text>) { Unique(db) && Matched(db) && AllUsed(db, used) }

  /** id was generated for a row that has not been written. */
  ghost predicate Unwritten(db: Db, id: Text) {
    && (forall i :: 0 <= i < |db.identities| ==> db.identities[i].actorId != id)
    && (forall j :: 0 <= j < |db.actors| ==> db.actors[j].id != id)
  }

  /** Somebody else holds the name: an agent, or another subject's actor. */
  ghost predicate HeldByOther(db: Db, name: Text, subject: Text) {
    exists j :: 0 <= j < |db.actors| && db.actors[j].name == name
                && (db.actors[j].kind.Agent? || LinkedToOther(db, db.actors[j].id, subject))
  }

  ghost predicate LinkedToOther(db: Db, actorId: Text, subject: Text) {
    exists i :: 0 <= i < |db.identities| && db.identities[i].actorId == actorId && db.identities[i].subject != subject
  }

  ghost predicate ProcOk(db: Db, used: set<Text>, p: Proc) {
    match p.pc
    case AtProbe => true
    case AtRole(id) => Linked(db, p.req.subject, id)
    case AtRead(id) => Linked(db, p.req.subject, id)
    case AtCreate(id) => id in used && Unwritten(db, id)
    case AtReprobe => Known(db, p.req.subject)
    case Ended(Got(a)) => Linked(db, p.req.subject, a.id) && a in db.actors && a.kind.Human?
    case Ended(Failed(NameConflict)) => HeldByOther(db, p.req.name, p.req.subject)
    case Ended(Failed(NotFound)) => false
    case Ended(Failed(DbError)) => true
  }

  ghost predicate Inv(s: System) {
    && DbOk(s.db, s.used)
    && (forall p :: p in s.procs ==> ProcOk(s.db, s.used, s.procs[p]))
    && (forall p, q :: p in s.procs && q in s.procs && p != q
                       && s.procs[p].pc.AtCreate? && s.procs[q].pc.AtCreate?
                       ==> s.procs[p].pc.newId != s.procs[q].pc.newId)
  }

  // ---------------------------------------------------- the tables only grow

  /** b has every row of a, links included; only roles may differ. */
  ghost predicate Grows(a: Db, b: Db) {
    && |a.identities| <= |b.identities| && a.actors <= b.actors
    && forall i :: 0 <= i < |a.identities| ==>
         b.identities[i].actorId == a.identities[i].actorId && b.identities[i].subject == a.identities[i].subject
  }

  lemma GrowthKeepsFacts(a: Db, b: Db, subject: Text, id: Text, name: Text)
    requires Grows(a, b)
    ensures Linked(a, subject, id) ==> Linked(b, subject, id)
    ensures Known(a, subject) ==> Known(b, subject)
    ensures HeldByOther(a, name, subject) ==> HeldByOther(b, name, subject)
  {
    if Linked(a, subject, id) {
      var i :| 0 <= i < |a.identities| && a.identities[i].subject == subject && a.identities[i].actorId == id;
      assert b.identities[i].subject == subject;
    }
    if Known(a, subject) {
      var i :| 0 <= i < |a.identities| && a.identities[i].subject == subject;
      assert b.identities[i].subject == subject;
    }
    if HeldByOther(a, name, subject) {
      var j :| 0 <= j < |a.actors| && a.actors[j].name == name
               && (a.actors[j].kind.Agent? || LinkedToOther(a, a.actors[j].id, subject));
      assert b.actors[j] == a.actors[j];
      if LinkedToOther(a, a.actors[j].id, subject) {
        var i :| 0 <= i < |a.identities| && a.identities[i].actorId == a.actors[j].id
                 && a.identities[i].subject != subject;
        assert b.identities[i].actorId == a.actors[j].id;
        assert LinkedToOther(b, b.actors[j].id, subject);
      }
    }
  }

  /** A process keeps its facts while the tables grow, as long as nobody writes
      its pending id. */
  lemma ProcKeeps(a: Db, b: Db, used: set<Text>, more: set<Text>, p: Proc)
    requires ProcOk(a, used, p) && Grows(a, b) && used <= more
    requires p.pc.AtCreate? ==> Unwritten(b, p.pc.newId)
    ensures ProcOk(b, more, p)
  {
    var id := match p.pc
              case AtRole(i) => i
              case AtRead(i) => i
              case Ended(Got(x)) => x.id
              case _ => [];
    GrowthKeepsFacts(a, b, p.req.subject, id, p.req.name);
  }

  // ---------------------------------------------------------- each statement

  /** Same links, same actors: everything but the roles. */
  ghost predicate SameLinks(a: Db, b: Db) {
    && |a.identities| == |b.identities| && a.actors == b.actors
    && forall i :: 0 <= i < |a.identities| ==>
         b.identities[i].actorId == a.identities[i].actorId && b.identities[i].subject == a.identities[i].subject
  }

  lemma SetRoleKeepsLinks(db: Db, id: Text, role: Text)
    ensures SameLinks(db, SetRole(db, id, role))
  {
  }

  lemma SameLinksMatched(a: Db, b: Db)
    requires SameLinks(a, b) && Matched(a)
    ensures Matched(b)
  {
    forall j | 0 <= j < |b.actors| && b.actors[j].kind.Human?
      ensures exists i :: 0 <= i < |b.identities| && b.identities[i].actorId == b.actors[j].id
    {
      var i :| 0 <= i < |a.identities| && a.identities[i].actorId == a.actors[j].id;
      assert b.identities[i].actorId == b.actors[j].id;
    }
    forall i | 0 <= i < |b.identities|
      ensures HasActor(b, b.identities[i].actorId, Human)
    {
      assert HasActor(a, a.identities[i].actorId, Human);
    }
  }

  lemma SameLinksOk(a: Db, b: Db, used: set<Text>)
    requires SameLinks(a, b) && DbOk(a, used)
    ensures DbOk(b, used) && Grows(a, b)
    ensures forall x :: Unwritten(a, x) ==> Unwritten(b, x)
  {
    SameLinksMatched(a, b);
    assert Unique(b);
    assert AllUsed(b, used);
  }

  lemma NewAgentOk(db: Db, used: set<Text>, id: Text, name: Text)
    requires DbOk(db, used) && id !in used && InsertActor(db, Actor(id, name, Agent)).Some?
    ensures var b := InsertActor(db, Actor(id, name, Agent)).value;
            DbOk(b, used + {id}) && Grows(db, b) && forall x :: x in used && Unwritten(db, x) ==> Unwritten(b, x)
  {
    var b := InsertActor(db, Actor(id, name, Agent)).value;
    forall i | 0 <= i < |b.identities|
      ensures HasActor(b, b.identities[i].actorId, Human)
    {
      ActorStays(db, b, b.identities[i].actorId, Human);
    }
  }

  lemma ActorStays(a: Db, b: Db, id: Text, kind: Kind)
    requires a.actors <= b.actors && HasActor(a, id, kind)
    ensures HasActor(b, id, kind)
  {
    var j :| 0 <= j < |a.actors| && a.actors[j].id == id && a.actors[j].kind == kind;
    assert b.actors[j] == a.actors[j];
  }

  lemma CreateMatched(db: Db, req: Request, id: Text)
    requires Matched(db) && CreateTx(db, req, id).Won?
    ensures Matched(CreateTx(db, req, id).db)
  {
    var b := CreateTx(db, req, id).db;
    var n, m := |db.identities|, |db.actors|;
    assert b.identities[n].actorId == id && b.actors[m].id == id && b.actors[m].kind == Human;
    forall i | 0 <= i < |b.identities|
      ensures HasActor(b, b.identities[i].actorId, Human)
    {
      if i < n { ActorStays(db, b, db.identities[i].actorId, Human); }
    }
    forall j | 0 <= j < |b.actors| && b.actors[j].kind.Human?
      ensures exists i :: 0 <= i < |b.identities| && b.identities[i].actorId == b.actors[j].id
    {
      if j < m {
        var i :| 0 <= i < n && db.identities[i].actorId == db.actors[j].id;
        assert b.identities[i].actorId == b.actors[j].id;
      }
    }
  }

  lemma CreateUnique(db: Db, used: set<Text>, req: Request, id: Text)
    requires Unique(db) && AllUsed(db, used) && id in used && CreateTx(db, req, id).Won?
    ensures Unique(CreateTx(db, req, id).db) && AllUsed(CreateTx(db, req, id).db, used)
  {
  }

  /** A committed transaction adds the identity and its human actor together. */
  lemma CreateOk(db: Db, used: set<Text>, req: Request, id: Text)
    requires DbOk(db, used) && id in used && CreateTx(db, req, id).Won?
    ensures var b := CreateTx(db, req, id).db;
            && DbOk(b, used) && Grows(db, b) && Linked(b, req.subject, id)
            && forall x :: x != id && Unwritten(db, x) ==> Unwritten(b, x)
  {
    CreateMatched(db, req, id);
    CreateUnique(db, used, req, id);
    var b := CreateTx(db, req, id).db;
    assert b.identities[|db.identities|] == Identity(id, req.subject, req.role);
  }

  /** With a fresh id the transaction fails exactly when the subject is new and
      the name is taken, and then its holder is an agent or another subject's
      actor: racers for one subject never fail each other. */
  lemma RollbackExactly(db: Db, used: set<Text>, req: Request, id: Text)
    requires DbOk(db, used) && Unwritten(db, id)
    ensures CreateTx(db, req, id).RolledBack?
            <==> !Known(db, req.subject) && ByName(db.actors, req.name) < |db.actors|
    ensures CreateTx(db, req, id).RolledBack? ==> HeldByOther(db, req.name, req.subject)
    ensures CreateTx(db, req, id).Lost? <==> Known(db, req.subject)
  {
    var j := ByName(db.actors, req.name);
    if CreateTx(db, req, id).RolledBack? && db.actors[j].kind.Human? {
      var i :| 0 <= i < |db.identities| && db.identities[i].actorId == db.actors[j].id;
      assert db.identities[i].subject != req.subject;
      assert LinkedToOther(db, db.actors[j].id, req.subject);
    }
  }

  lemma FindLinked(db: Db, used: set<Text>, subject: Text)
    requires DbOk(db, used)
    ensures FindIdentity(db, subject).Some? <==> Known(db, subject)
    ensures FindIdentity(db, subject).Some? ==> Linked(db, subject, FindIdentity(db, subject).value.actorId)
  {
  }

  lemma ReadLinked(db: Db, used: set<Text>, subject: Text, id: Text)
    requires DbOk(db, used) && Linked(db, subject, id)
    ensures var r := ReadActor(db, id);
            r.Got? && r.actor.id == id && r.actor.kind.Human? && r.actor in db.actors
  {
    var i :| 0 <= i < |db.identities| && db.identities[i].subject == subject && db.identities[i].actorId == id;
    assert HasActor(db, id, Human);
    var j :| 0 <= j < |db.actors| && db.actors[j].id == id && db.actors[j].kind == Human;
    var k := ById(db.actors, id);
    assert k == j;
  }

  // ------------------------------------------------------------- preservation

  /** What one statement of pid has to establish for the whole invariant. */
  lemma StatementKeepsInv(s: System, pid: nat, pc: Pc, db: Db, used: set<Text>)
    requires Inv(s) && pid in s.procs && Grows(s.db, db) && s.used <= used && DbOk(db, used)
    requires forall p :: p in s.procs && p != pid && s.procs[p].pc.AtCreate? ==> Unwritten(db, s.procs[p].pc.newId)
    requires ProcOk(db, used, Proc(s.procs[pid].req, pc))
    requires pc.AtCreate? ==> pc.newId !in s.used
    ensures Inv(System(db, s.procs[pid := Proc(s.procs[pid].req, pc)], used))
  {
    var procs := s.procs[pid := Proc(s.procs[pid].req, pc)];
    forall p | p in procs
      ensures ProcOk(db, used, procs[p])
    {
      if p != pid { ProcKeeps(s.db, db, s.used, used, s.procs[p]); }
    }
    forall p | p in s.procs && p != pid && pc.AtCreate? && s.procs[p].pc.AtCreate?
      ensures s.procs[p].pc.newId != pc.newId
    {
      assert ProcOk(s.db, s.used, s.procs[p]);
    }
  }

  lemma PendingUnwritten(s: System, pid: nat)
    requires Inv(s)
    ensures forall p :: p in s.procs && p != pid && s.procs[p].pc.AtCreate? ==>
              Unwritten(s.db, s.procs[p].pc.newId)
              && (pid in s.procs && s.procs[pid].pc.AtCreate? ==> s.procs[p].pc.newId != s.procs[pid].pc.newId)
  {
    forall p | p in s.procs && p != pid && s.procs[p].pc.AtCreate?
      ensures Unwritten(s.db, s.procs[p].pc.newId)
    {
      assert ProcOk(s.db, s.used, s.procs[p]);
    }
  }

  lemma ProbeKeepsInv(s: System, pid: nat, freshId: Text)
    requires Inv(s) && pid in s.procs && s.procs[pid].pc.AtProbe? && freshId !in s.used
    ensures Inv(Execute(s, pid, freshId))
  {
    var t := Execute(s, pid, freshId);
    FindLinked(s.db, s.used, s.procs[pid].req.subject);
    PendingUnwritten(s, pid);
    assert Unwritten(s.db, freshId);
    StatementKeepsInv(s, pid, t.procs[pid].pc, s.db, t.used);
  }

  lemma RoleKeepsInv(s: System, pid: nat)
    requires Inv(s) && pid in s.procs && s.procs[pid].pc.AtRole?
    ensures Inv(Execute(s, pid, []))
  {
    var id, req := s.procs[pid].pc.actorId, s.procs[pid].req;
    var d := SetRole(s.db, id, req.role);
    assert ProcOk(s.db, s.used, s.procs[pid]);
    SetRoleKeepsLinks(s.db, id, req.role);
    SameLinksOk(s.db, d, s.used);
    GrowthKeepsFacts(s.db, d, req.subject, id, req.name);
    PendingUnwritten(s, pid);
    StatementKeepsInv(s, pid, AtRead(id), d, s.used);
  }

  lemma CreateKeepsInv(s: System, pid: nat)
    requires Inv(s) && pid in s.procs && s.procs[pid].pc.AtCreate?
    ensures Inv(Execute(s, pid, []))
  {
    var id, req, t := s.procs[pid].pc.newId, s.procs[pid].req, Execute(s, pid, []);
    assert ProcOk(s.db, s.used, s.procs[pid]);
    RollbackExactly(s.db, s.used, req, id);
    PendingUnwritten(s, pid);
    if CreateTx(s.db, req, id).Won? { CreateOk(s.db, s.used, req, id); }
    StatementKeepsInv(s, pid, t.procs[pid].pc, t.db, s.used);
  }

  lemma ReadKeepsInv(s: System, pid: nat)
    requires Inv(s) && pid in s.procs && (s.procs[pid].pc.AtRead? || s.procs[pid].pc.AtReprobe?)
    ensures Inv(Execute(s, pid, []))
  {
    var req, t := s.procs[pid].req, Execute(s, pid, []);
    assert ProcOk(s.db, s.used, s.procs[pid]);
    FindLinked(s.db, s.used, req.subject);
    PendingUnwritten(s, pid);
    if s.procs[pid].pc.AtRead? { ReadLinked(s.db, s.used, req.subject, s.procs[pid].pc.actorId); }
    StatementKeepsInv(s, pid, t.procs[pid].pc, s.db, s.used);
  }

  lemma ExecuteKeepsInv(s: System, pid: nat, freshId: Text)
    requires Inv(s) && pid in s.procs && (s.procs[pid].pc.AtProbe? ==> freshId !in s.used)
    ensures Inv(Execute(s, pid, freshId))
  {
    match s.procs[pid].pc
    case AtProbe => ProbeKeepsInv(s, pid, freshId);
    case AtRole(_) => RoleKeepsInv(s, pid);
    case AtRead(_) => ReadKeepsInv(s, pid);
    case AtCreate(_) => CreateKeepsInv(s, pid);
    case AtReprobe => ReadKeepsInv(s, pid);
    case Ended(_) =>
  }

  lemma StepKeepsInv(s: System, e: Event)
    requires Inv(s) && FreshIds(s, e)
    ensures Inv(Step(s, e))
  {
    match e
    case Call(_, _) =>
    case Advance(pid, freshId) => if pid in s.procs { ExecuteKeepsInv(s, pid, freshId); }
    case Fault(_) =>
    case NewAgent(id, name) =>
      var t := Step(s, e);
      if t.db != s.db { NewAgentOk(s.db, s.used, id, name); }
      forall p | p in s.procs
        ensures ProcOk(t.db, t.used, s.procs[p])
      {
        ProcKeeps(s.db, t.db, s.used, t.used, s.procs[p]);
      }
  }

  lemma {:induction false} RunKeepsInv(es: seq<Event>)
    requires GoodRun(es)
    ensures Inv(Run(es))
  {
    if es != [] {
      RunKeepsInv(es[..|es| - 1]);
      StepKeepsInv(Run(es[..|es| - 1]), es[|es| - 1]);
    }
  }

  // ------------------------------------------------------------ the theorems

  /** In every interleaving: one identity per subject, each pointing to an
      existing human actor, distinct subjects to distinct actors, and no human
      actor without an identity. */
  lemma IdentitiesAreSound(es: seq<Event>)
    requires GoodRun(es)
    ensures var db := Run(es).db;
            && (forall i, j :: 0 <= i < |db.identities| && 0 <= j < |db.identities| ==>
                  (db.identities[i].subject == db.identities[j].subject <==> i == j)
                  && (db.identities[i].actorId == db.identities[j].actorId <==> i == j))
            && (forall i :: 0 <= i < |db.identities| ==> HasActor(db, db.identities[i].actorId, Human))
            && (forall j :: 0 <= j < |db.actors| && db.actors[j].kind.Human? ==>
                  exists i :: 0 <= i < |db.identities| && db.identities[i].actorId == db.actors[j].id)
  {
    RunKeepsInv(es);
  }

  lemma SameLinkSameActor(db: Db, subj: Text, a: Actor, subj': Text, b: Actor)
    requires Unique(db) && Linked(db, subj, a.id) && Linked(db, subj', b.id) && a in db.actors && b in db.actors
    ensures a == b <==> subj == subj'
  {
    var i :| 0 <= i < |db.identities| && db.identities[i].subject == subj && db.identities[i].actorId == a.id;
    var j :| 0 <= j < |db.identities| && db.identities[j].subject == subj' && db.identities[j].actorId == b.id;
    var x :| 0 <= x < |db.actors| && db.actors[x] == a;
    var y :| 0 <= y < |db.actors| && db.actors[y] == b;
    assert i == j <==> subj == subj';
    assert i == j <==> a.id == b.id;
    assert x == y <==> a.id == b.id;
  }

  /** All successful returns agree: two calls get the same actor exactly when
      they are for the same subject. */
  lemma ReturnsAgree(es: seq<Event>, p: nat, q: nat)
    requires GoodRun(es) && p in Run(es).procs && q in Run(es).procs
    requires Run(es).procs[p].pc.Ended? && Run(es).procs[p].pc.outcome.Got?
    requires Run(es).procs[q].pc.Ended? && Run(es).procs[q].pc.outcome.Got?
    ensures var s := Run(es);
            s.procs[p].pc.outcome.actor == s.procs[q].pc.outcome.actor
            <==> s.procs[p].req.subject == s.procs[q].req.subject
  {
    RunKeepsInv(es);
    var s := Run(es);
    assert ProcOk(s.db, s.used, s.procs[p]) && ProcOk(s.db, s.used, s.procs[q]);
    SameLinkSameActor(s.db, s.procs[p].req.subject, s.procs[p].pc.outcome.actor,
                      s.procs[q].req.subject, s.procs[q].pc.outcome.actor);
  }

  /** A call fails without a database fault only on the name index, and only
      because an agent or another subject's actor holds that name; a read-back
      never comes up empty. */
  lemma OnlyOthersCauseFailure(es: seq<Event>, p: nat)
    requires GoodRun(es) && p in Run(es).procs
    requires Run(es).procs[p].pc.Ended? && Run(es).procs[p].pc.outcome.Failed?
    ensures var proc := Run(es).procs[p];
            && proc.pc.outcome.why != NotFound
            && (proc.pc.outcome.why == NameConflict ==>
                  HeldByOther(Run(es).db, proc.req.name, proc.req.subject))
  {
    RunKeepsInv(es);
    assert ProcOk(Run(es).db, Run(es).used, Run(es).procs[p]);
  }

  /** Where a call can be once it has written or found its identity. */
  predicate PastWriting(pc: Pc) {
    pc.AtRole? || pc.AtRead? || (pc.Ended? && pc.outcome != Failed(NameConflict))
  }

  /** A statement that changes the tables takes its call there. */
  lemma WriterMovesOn(s: System, e: Event, p: nat)
    requires e == Fault(p) || (e.Advance? && e.pid == p)
    requires Step(s, e).db != s.db
    ensures p in Step(s, e).procs && PastWriting(Step(s, e).procs[p].pc)
  {
  }

  lemma PastWritingStep(s: System, e: Event, p: nat)
    requires p in s.procs && PastWriting(s.procs[p].pc)
    ensures p in Step(s, e).procs && PastWriting(Step(s, e).procs[p].pc)
  {
  }

  lemma {:induction false} PastWritingForGood(es: seq<Event>, n: nat, p: nat)
    requires n <= |es| && p in Run(es[..n]).procs && PastWriting(Run(es[..n]).procs[p].pc)
    ensures p in Run(es).procs && PastWriting(Run(es).procs[p].pc)
    decreases |es|
  {
    if n == |es| {
      assert es[..n] == es;
    } else {
      var b := es[..|es| - 1];
      assert b[..n] == es[..n];
      PastWritingForGood(b, n, p);
      PastWritingStep(Run(b), es[|es| - 1], p);
    }
  }

  /** A failed transaction leaves nothing behind: in every interleaving, a call
      that failed on the name index changed neither table at any of its steps,
      so it left no identity, no actor and no role. */
  lemma FailureLeavesNothing(es: seq<Event>, p: nat, n: nat)
    requires p in Run(es).procs && Run(es).procs[p].pc == Ended(Failed(NameConflict))
    requires n < |es| && (es[n] == Fault(p) || (es[n].Advance? && es[n].pid == p))
    ensures Run(es[..n + 1]).db == Run(es[..n]).db
  {
    assert es[..n + 1][..n] == es[..n];
    if Run(es[..n + 1]).db != Run(es[..n]).db {
      WriterMovesOn(Run(es[..n]), es[n], p);
      PastWritingForGood(es, n + 1, p);
      assert false;
    }
  }

  /** Any step that ends a call in failure, faults included, writes nothing. */
  lemma FailingStepWritesNothing(s: System, e: Event, p: nat)
    requires p in s.procs && !s.procs[p].pc.Ended? && (e == Fault(p) || (e.Advance? && e.pid == p))
    requires var t := Step(s, e); t.procs[p].pc.Ended? && t.procs[p].pc.outcome.Failed?
    ensures Step(s, e).db == s.db
  {
  }

  /** Links are permanent: whoever a subject was given, it keeps. */
  lemma {:induction false} LinksArePermanent(es: seq<Event>, n: nat, subject: Text, id: Text)
    requires GoodRun(es) && n <= |es| && Linked(Run(es[..n]).db, subject, id)
    ensures Linked(Run(es).db, subject, id)
    decreases |es| - n
  {
    if n == |es| {
      assert es[..n] == es;
    } else {
      var b := es[..|es| - 1];
      assert b[..n] == es[..n];
      LinksPermanentStep(b, es[|es| - 1], n, subject, id);
    }
  }

  lemma {:induction false} LinksPermanentStep(b: seq<Event>, e: Event, n: nat, subject: Text, id: Text)
    requires GoodRun(b) && FreshIds(Run(b), e) && n <= |b| && Linked(Run(b[..n]).db, subject, id)
    ensures Linked(Step(Run(b), e).db, subject, id)
    decreases |b|
  {
    if n == |b| {
      assert b[..n] == b;
    } else {
      var c := b[..|b| - 1];
      assert c[..n] == b[..n];
      LinksPermanentStep(c, b[|b| - 1], n, subject, id);
    }
    StepGrows(Run(b), e);
    GrowthKeepsFacts(Run(b).db, Step(Run(b), e).db, subject, id, []);
  }

  lemma StepGrows(s: System, e: Event)
    ensures Grows(s.db, Step(s, e).db)
  {
    if e.Advance? && e.pid in s.procs {
      if s.procs[e.pid].pc.AtRole? {
        SetRoleKeepsLinks(s.db, s.procs[e.pid].pc.actorId, s.procs[e.pid].req.role);
      }
    }
  }

  /** The row i after a step is the old one, or the step was a statement of a call
      for the row's own subject, which wrote that call's role. */
  ghost predicate OwnRow(s: System, e: Event, i: nat) {
    var a, b := s.db.identities, Step(s, e).db.identities;
    && |a| <= |b|
    && (i < |b| ==>
          || (i < |a| && b[i] == a[i])
          || (&& e.Advance? && e.pid in s.procs
              && b[i].subject == s.procs[e.pid].req.subject && b[i].role == s.procs[e.pid].req.role
              && (i < |a| ==> b[i] == a[i].(role := s.procs[e.pid].req.role))))
  }

  lemma RoleStatementOwn(s: System, pid: nat, i: nat)
    requires Inv(s) && pid in s.procs && s.procs[pid].pc.AtRole?
    ensures OwnRow(s, Advance(pid, []), i)
  {
    var id, subject := s.procs[pid].pc.actorId, s.procs[pid].req.subject;
    assert ProcOk(s.db, s.used, s.procs[pid]);
    var k :| 0 <= k < |s.db.identities| && s.db.identities[k].subject == subject && s.db.identities[k].actorId == id;
    assert ByActor(s.db.identities, id) == k;
  }

  lemma StepWritesOwnRows(s: System, e: Event, i: nat)
    requires Inv(s)
    ensures OwnRow(s, e, i)
  {
    if e.Advance? && e.pid in s.procs && s.procs[e.pid].pc.AtRole? { RoleStatementOwn(s, e.pid, i); }
  }

  lemma {:induction false} PrefixGood(es: seq<Event>, n: nat)
    requires GoodRun(es) && n <= |es|
    ensures GoodRun(es[..n])
    decreases |es|
  {
    if n == |es| {
      assert es[..n] == es;
    } else {
      assert es[..|es| - 1][..n] == es[..n];
      PrefixGood(es[..|es| - 1], n);
    }
  }

  /** In every interleaving an identity's role changes only at a statement of a
      call for that identity's own subject, and then to that call's role; its
      subject and actor never change. */
  lemma RoleChangesAreOwn(es: seq<Event>, n: nat, i: nat)
    requires GoodRun(es) && n < |es| && i < |Run(es[..n]).db.identities|
    ensures var s, a, b := Run(es[..n]), Run(es[..n]).db.identities, Run(es[..n + 1]).db.identities;
            && i < |b| && b[i].subject == a[i].subject && b[i].actorId == a[i].actorId
            && (b[i].role != a[i].role ==>
                  && es[n].Advance? && es[n].pid in s.procs && s.procs[es[n].pid].req.subject == a[i].subject
                  && b[i].role == s.procs[es[n].pid].req.role)
  {
    assert es[..n + 1][..n] == es[..n];
    PrefixGood(es, n);
    RunKeepsInv(es[..n]);
    StepWritesOwnRows(Run(es[..n]), es[n], i);
  }

  /** Somebody called for that subject with that role. */
  ghost predicate Asked(s: System, subject: Text, role: Text) {
    exists p :: p in s.procs && s.procs[p].req.subject == subject && s.procs[p].req.role == role
  }

  lemma AskedStays(s: System, e: Event, subject: Text, role: Text)
    requires Asked(s, subject, role)
    ensures Asked(Step(s, e), subject, role)
  {
    var p :| p in s.procs && s.procs[p].req.subject == subject && s.procs[p].req.role == role;
    assert p in Step(s, e).procs && Step(s, e).procs[p].req == s.procs[p].req;
  }

  /** No role out of nowhere: in every interleaving each stored role is one that
      some call for that very subject brought along. */
  lemma {:induction false} RolesWereAsked(es: seq<Event>, i: nat)
    requires GoodRun(es) && i < |Run(es).db.identities|
    ensures Asked(Run(es), Run(es).db.identities[i].subject, Run(es).db.identities[i].role)
  {
    if es != [] {
      var s, e := Run(es[..|es| - 1]), es[|es| - 1];
      var x := Step(s, e).db.identities[i];
      RunKeepsInv(es[..|es| - 1]);
      StepWritesOwnRows(s, e, i);
      if i < |s.db.identities| && x == s.db.identities[i] {
        RolesWereAsked(es[..|es| - 1], i);
      } else {
        assert Asked(s, x.subject, x.role);
      }
      AskedStays(s, e, x.subject, x.role);
    }
  }

  /** Statements left in the worst case. */
  function Rank(pc: Pc): nat {
    match pc
    case AtProbe => 4
    case AtCreate(_) => 3
    case AtRole(_) => 2
    case AtReprobe => 2
    case AtRead(_) => 1
    case Ended(_) => 0
  }

  /** Every call makes progress whatever the others do: each of its statements
      brings it nearer to its end, at most 4 in all. */
  lemma EveryStatementAdvances(s: System, pid: nat, freshId: Text)
    requires pid in s.procs && !s.procs[pid].pc.Ended?
    ensures Rank(Step(s, Advance(pid, freshId)).procs[pid].pc) < Rank(s.procs[pid].pc) <= 4
  {
  }

  /** The repository method is one schedule of these steps: four statements of
      one call with nothing in between give its tables and its answer. */
  lemma AloneIsARun(s: System, pid: nat, freshId: Text)
    requires pid in s.procs && s.procs[pid].pc.AtProbe?
    ensures var t1 := Step(s, Advance(pid, freshId));
            var t2 := Step(t1, Advance(pid, freshId));
            var t3 := Step(t2, Advance(pid, freshId));
            var t4 := Step(t3, Advance(pid, freshId));
            var (db, out) := Alone(s.db, s.procs[pid].req, freshId);
            t4.db == db && pid in t4.procs && t4.procs[pid].pc == Ended(out)
  {
  }

  lemma RoleAfterSet(db: Db, used: set<Text>, subject: Text, role: Text)
    requires DbOk(db, used) && FindIdentity(db, subject).Some?
    ensures var id := FindIdentity(db, subject).value.actorId;
            FindIdentity(SetRole(db, id, role), subject) == Some(Identity(id, subject, role))
  {
    var i := BySubject(db.identities, subject);
    var k := ByActor(db.identities, db.identities[i].actorId);
    assert k == i;
    var d := SetRole(db, db.identities[i].actorId, role);
    var m := BySubject(d.identities, subject);
    assert d.identities[i].subject == subject;
    assert m < |d.identities| && db.identities[m].subject == subject;
  }

  /** The call got a, the subject's human actor, and the stored role is the
      call's. */
  ghost predicate Served(d: Db, req: Request, a: Actor) {
    && Linked(d, req.subject, a.id) && a.kind.Human? && a in d.actors
    && FindIdentity(d, req.subject).Some? && FindIdentity(d, req.subject).value.role == req.role
  }

  lemma AloneKnown(db: Db, used: set<Text>, req: Request, newId: Text)
    requires DbOk(db, used) && Known(db, req.subject)
    ensures var (d, out) := Alone(db, req, newId);
            out.Got? && Served(d, req, out.actor)
  {
    FindLinked(db, used, req.subject);
    var i := FindIdentity(db, req.subject).value;
    var d := Alone(db, req, newId).0;
    SetRoleKeepsLinks(db, i.actorId, req.role);
    SameLinksOk(db, d, used);
    GrowthKeepsFacts(db, d, req.subject, i.actorId, req.name);
    ReadLinked(d, used, req.subject, i.actorId);
    RoleAfterSet(db, used, req.subject, req.role);
  }

  lemma AloneNew(db: Db, used: set<Text>, req: Request, newId: Text)
    requires DbOk(db, used) && newId in used && Unwritten(db, newId) && !Known(db, req.subject)
    ensures var (d, out) := Alone(db, req, newId);
            match out
            case Got(a) => Served(d, req, a)
            case Failed(why) => why == NameConflict && d == db && HeldByOther(db, req.name, req.subject)
  {
    FindLinked(db, used, req.subject);
    RollbackExactly(db, used, req, newId);
    if CreateTx(db, req, newId).Won? {
      CreateOk(db, used, req, newId);
      var d := CreateTx(db, req, newId).db;
      ReadLinked(d, used, req.subject, newId);
      assert d.identities[|db.identities|].subject == req.subject;
    }
  }

  /** From sound tables a call alone succeeds unless another holds the name; it
      returns the subject's human actor, and the stored role is the call's. */
  lemma AloneMeaning(db: Db, used: set<Text>, req: Request, newId: Text)
    requires DbOk(db, used) && newId !in used
    ensures var (d, out) := Alone(db, req, newId);
            match out
            case Got(a) => Served(d, req, a)
            case Failed(why) => why == NameConflict && d == db && HeldByOther(db, req.name, req.subject)
  {
    if Known(db, req.subject) {
      AloneKnown(db, used, req, newId);
    } else {
      assert DbOk(db, used + {newId});
      AloneNew(db, used + {newId}, req, newId);
    }
  }

  /** What a call alone may touch: nobody else's identity, no existing actor; of
      a known subject at most the role, for a new one one identity and one actor
      with what the call asked for. */
  lemma AloneWritesOnlyItsOwn(db: Db, used: set<Text>, req: Request, newId: Text)
    requires DbOk(db, used) && newId !in used
    ensures var (d, out) := Alone(db, req, newId);
            && (forall s :: s != req.subject ==> FindIdentity(d, s) == FindIdentity(db, s))
            && (Known(db, req.subject) ==>
                  && d.actors == db.actors && |d.identities| == |db.identities|
                  && forall i :: 0 <= i < |db.identities| ==>
                       d.identities[i] == if db.identities[i].subject == req.subject
                                          then Identity(db.identities[i].actorId, req.subject, req.role)
                                          else db.identities[i])
            && (!Known(db, req.subject) ==>
                  if out.Got? then
                    && out.actor == Actor(newId, req.name, Human)
                    && d == Db(db.identities + [Identity(newId, req.subject, req.role)], db.actors + [out.actor])
                  else d == db)
  {
    var d := Alone(db, req, newId).0;
    FindLinked(db, used, req.subject);
    if Known(db, req.subject) {
      KnownWritesOnlyItsOwn(db, used, req, newId);
      forall s | s != req.subject
        ensures FindIdentity(d, s) == FindIdentity(db, s)
      {
        OthersFoundAlike(db, d, s);
      }
    } else {
      NewWritesOnlyItsOwn(db, used, req, newId);
      forall s | s != req.subject
        ensures FindIdentity(d, s) == FindIdentity(db, s)
      {
        if d != db { AppendFoundAlike(db, d, s); }
      }
    }
  }

  lemma KnownWritesOnlyItsOwn(db: Db, used: set<Text>, req: Request, newId: Text)
    requires DbOk(db, used) && Known(db, req.subject)
    ensures var d := Alone(db, req, newId).0;
            && d.actors == db.actors && |d.identities| == |db.identities|
            && forall i :: 0 <= i < |db.identities| ==>
                 d.identities[i] == if db.identities[i].subject == req.subject
                                    then Identity(db.identities[i].actorId, req.subject, req.role)
                                    else db.identities[i]
  {
    var i := BySubject(db.identities, req.subject);
    var k := ByActor(db.identities, db.identities[i].actorId);
    assert k == i;
  }

  lemma NewWritesOnlyItsOwn(db: Db, used: set<Text>, req: Request, newId: Text)
    requires DbOk(db, used) && newId !in used && !Known(db, req.subject)
    ensures var (d, out) := Alone(db, req, newId);
            if out.Got? then
              && out.actor == Actor(newId, req.name, Human)
              && d == Db(db.identities + [Identity(newId, req.subject, req.role)], db.actors + [out.actor])
            else d == db
  {
    FindLinked(db, used, req.subject);
    RollbackExactly(db, used, req, newId);
    if CreateTx(db, req, newId).Won? {
      var d := CreateTx(db, req, newId).db;
      assert d.actors[|db.actors|] == Actor(newId, req.name, Human);
      assert forall j :: 0 <= j < |db.actors| ==> d.actors[j] == db.actors[j];
    }
  }

  lemma OthersFoundAlike(a: Db, b: Db, s: Text)
    requires SameLinks(a, b)
    requires forall i :: 0 <= i < |a.identities| && a.identities[i].subject == s ==> b.identities[i] == a.identities[i]
    ensures FindIdentity(b, s) == FindIdentity(a, s)
  {
    var i, j := BySubject(a.identities, s), BySubject(b.identities, s);
    assert i == j;
  }

  lemma AppendFoundAlike(a: Db, b: Db, s: Text)
    requires |b.identities| == |a.identities| + 1 && a.identities == b.identities[..|a.identities|]
    requires b.identities[|a.identities|].subject != s
    ensures FindIdentity(b, s) == FindIdentity(a, s)
  {
    var i, j := BySubject(a.identities, s), BySubject(b.identities, s);
    assert forall k :: 0 <= k < |a.identities| ==> b.identities[k] == a.identities[k];
    assert i == |a.identities| ==> j == |b.identities|;
  }

  /** The loser of a race adopts the winner's actor and writes nothing, so its
      role is stored exactly when the winner's already equals it. */
  lemma LoserWritesNothing(db: Db, used: set<Text>, req: Request, newId: Text)
    requires DbOk(db, used) && Known(db, req.subject)
    ensures var (d, out) := AfterMiss(db, req, newId);
            && d == db && out.Got? && Linked(db, req.subject, out.actor.id) && out.actor.kind.Human?
            && (Served(d, req, out.actor) <==> FindIdentity(db, req.subject).value.role == req.role)
  {
    FindLinked(db, used, req.subject);
    ReadLinked(db, used, req.subject, FindIdentity(db, req.subject).value.actorId);
  }
}
