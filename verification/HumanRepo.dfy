/** GetOrCreateHumanActor: its database statements as atomic steps on two
    tables, and the method that performs them (internal/storage/human_repo.go). */
module HumanRepo {
  import opened Bytes

  datatype Kind = Agent | Human

  datatype Actor = Actor(id: Text, name: Text, kind: Kind)

  datatype Identity = Identity(actorId: Text, subject: Text, role: Text)

  datatype Db = Db(identities: seq<Identity>, actors: seq<Actor>)

  datatype Request = Request(subject: Text, name: Text, role: Text)

  // -------------------------------------------------------------- statements

  function BySubject(t: seq<Identity>, subject: Text): nat {
    FirstWhere(t, (i: Identity) => i.subject == subject)
  }

  function ByActor(t: seq<Identity>, actorId: Text): nat {
    FirstWhere(t, (i: Identity) => i.actorId == actorId)
  }

  function ById(t: seq<Actor>, id: Text): nat { FirstWhere(t, (a: Actor) => a.id == id) }

  function ByName(t: seq<Actor>, name: Text): nat { FirstWhere(t, (a: Actor) => a.name == name) }

  function FindIdentity(db: Db, subject: Text): Option<Identity> {
    var i := BySubject(db.identities, subject);
    if i == |db.identities| then None else Some(db.identities[i])
  }

  function FindActor(db: Db, id: Text): Option<Actor> {
    var i := ById(db.actors, id);
    if i == |db.actors| then None else Some(db.actors[i])
  }

  /** UPDATE user_identities SET role WHERE actor_id. */
  function SetRole(db: Db, actorId: Text, role: Text): Db {
    var i := ByActor(db.identities, actorId);
    if i == |db.identities| then db
    else db.(identities := db.identities[i := db.identities[i].(role := role)])
  }

  /** INSERT of an actor under its primary key and unique display name. */
  function InsertActor(db: Db, a: Actor): Option<Db> {
    if ById(db.actors, a.id) < |db.actors| || ByName(db.actors, a.name) < |db.actors| then None
    else Some(db.(actors := db.actors + [a]))
  }

  datatype Commit = Won(db: Db) | Lost | RolledBack

  /** The transaction: insert the identity unless the subject has one; only a
      winner inserts the actor; any uniqueness error undoes both. */
  function CreateTx(db: Db, req: Request, newId: Text): Commit {
    if BySubject(db.identities, req.subject) < |db.identities| then Lost
    else if ByActor(db.identities, newId) < |db.identities| then RolledBack
    else
      match InsertActor(db, Actor(newId, req.name, Human))
      case None => RolledBack
      case Some(d) => Won(d.(identities := db.identities + [Identity(newId, req.subject, req.role)]))
  }

  datatype Failure = NameConflict | NotFound | DbError

  datatype Outcome = Got(actor: Actor) | Failed(why: Failure)

  function ReadActor(db: Db, id: Text): Outcome {
    match FindActor(db, id)
    case Some(a) => Got(a)
    case None => Failed(NotFound)
  }

  /** What a call does after its first probe found no identity: between the
      two anyone may have acted, so the transaction may find the subject. */
  function AfterMiss(db: Db, req: Request, newId: Text): (Db, Outcome) {
    match CreateTx(db, req, newId)
    case RolledBack => (db, Failed(NameConflict))
    case Won(d) => (d, ReadActor(d, newId))
    case Lost =>
      match FindIdentity(db, req.subject)
      case Some(w) => (db, ReadActor(db, w.actorId))
      case None => (db, Failed(NotFound))
  }

  /** One call with nothing interleaved. */
  function Alone(db: Db, req: Request, newId: Text): (Db, Outcome) {
    match FindIdentity(db, req.subject)
    case Some(i) =>
      var d := if i.role != req.role then SetRole(db, i.actorId, req.role) else db;
      (d, ReadActor(d, i.actorId))
    case None => AfterMiss(db, req, newId)
  }

  class Repository {
    var identities: seq<Identity>
    var actors: seq<Actor>

    ghost function View(): Db
      reads this
    {
      Db(identities, actors)
    }

    constructor ()
      ensures View() == Db([], [])
    {
      identities, actors := [], [];
    }

    method GetOrCreateHumanActor(req: Request, newId: Text) returns (out: Outcome)
      modifies this
      ensures (View(), out) == Alone(old(View()), req, newId)
    {
      var i := BySubject(identities, req.subject);
      if i < |identities| {
        var identity := identities[i];
        if identity.role != req.role { UpdateRole(identity.actorId, req.role); }
        out := First(identity.actorId);
        return;
      }
      out := CreateOrAdopt(req, newId);
    }

    /** The second half of GetOrCreateHumanActor, from the transaction on. */
    method CreateOrAdopt(req: Request, newId: Text) returns (out: Outcome)
      modifies this
      ensures (View(), out) == AfterMiss(old(View()), req, newId)
    {
      var won, failed := Transact(req, newId);
      if failed { return Failed(NameConflict); }
      if won {
        out := First(newId);
        return;
      }
      var i := BySubject(identities, req.subject);
      if i == |identities| { return Failed(NotFound); }
      out := First(identities[i].actorId);
    }

    method UpdateRole(actorId: Text, role: Text)
      modifies this
      ensures View() == SetRole(old(View()), actorId, role)
    {
      var i := ByActor(identities, actorId);
      if i < |identities| { identities := identities[i := identities[i].(role := role)]; }
    }

    method First(id: Text) returns (out: Outcome)
      ensures out == ReadActor(View(), id)
    {
      var i := ById(actors, id);
      if i < |actors| { return Got(actors[i]); }
      return Failed(NotFound);
    }

    /** The closure passed to db.Transaction: on an error both tables are put
        back as they were. */
    method Transact(req: Request, newId: Text) returns (won: bool, failed: bool)
      modifies this
      ensures CreateTx(old(View()), req, newId).Won? ==>
                won && !failed && View() == CreateTx(old(View()), req, newId).db
      ensures CreateTx(old(View()), req, newId).Lost? ==> !won && !failed && View() == old(View())
      ensures CreateTx(old(View()), req, newId).RolledBack? ==> failed && View() == old(View())
    {
      var before := identities;
      if BySubject(identities, req.subject) < |identities| { return false, false; }
      if ByActor(identities, newId) < |identities| { return false, true; }
      identities := identities + [Identity(newId, req.subject, req.role)];
      if ById(actors, newId) < |actors| || ByName(actors, req.name) < |actors| {
        identities := before;
        return true, true;
      }
      actors := actors + [Actor(newId, req.name, Human)];
      return true, false;
    }
  }
}
