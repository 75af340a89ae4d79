/** Agent bearer tokens: issue, authenticate, revoke one, revoke all, and what
    holds over every run of them (internal/storage/actor_repo.go). */
module Credentials {
  import opened Bytes

  datatype Credential = Credential(
    id: Text, actorId: Text, tokenHash: Text, revokedAt: Option<int>, lastUsedAt: Option<int>)

  datatype Answer = Authenticated(actorId: Text) | InvalidToken | ActorNotFound

  type Hash = Text -> Text

  // -------------------------------------------------------------- statements

  /** WHERE token_hash = ? AND revoked_at IS NULL. */
  function FindLive(t: seq<Credential>, h: Text): nat {
    FirstWhere(t, (c: Credential) => c.tokenHash == h && c.revokedAt.None?)
  }

  /** The primary key on id and the unique index on token_hash. */
  predicate Clashes(t: seq<Credential>, c: Credential) {
    exists i :: 0 <= i < |t| && (t[i].id == c.id || t[i].tokenHash == c.tokenHash)
  }

  function Inserted(t: seq<Credential>, c: Credential): seq<Credential> {
    if Clashes(t, c) then t else t + [c]
  }

  function Touched(t: seq<Credential>, i: nat, now: int): seq<Credential>
    requires i < |t|
  {
    t[i := t[i].(lastUsedAt := Some(now))]
  }

  /** UPDATE ... SET revoked_at WHERE ... AND revoked_at IS NULL. */
  function RevokedOne(c: Credential, hit: bool, now: int): Credential {
    if hit && c.revokedAt.None? then c.(revokedAt := Some(now)) else c
  }

  function RevokedById(t: seq<Credential>, id: Text, now: int): seq<Credential> {
    seq(|t|, k requires 0 <= k < |t| => RevokedOne(t[k], t[k].id == id, now))
  }

  function RevokedByActor(t: seq<Credential>, actorId: Text, now: int): seq<Credential> {
    seq(|t|, k requires 0 <= k < |t| => RevokedOne(t[k], t[k].actorId == actorId, now))
  }

  function Authentication(t: seq<Credential>, actors: set<Text>, h: Text): Answer {
    var i := FindLive(t, h);
    if i == |t| then InvalidToken
    else if t[i].actorId in actors then Authenticated(t[i].actorId)
    else ActorNotFound
  }

  predicate HasActive(t: seq<Credential>, actorId: Text) {
    exists k :: 0 <= k < |t| && t[k].actorId == actorId && t[k].revokedAt.None?
  }

  /** The actor ids of unrevoked rows; which rows repeat an id does not matter. */
  function ActiveIds(t: seq<Credential>): (ids: seq<Text>)
    ensures forall a :: a in ids <==> HasActive(t, a)
  {
    if t == [] then []
    else
      var rest := ActiveIds(t[1..]);
      assert forall a :: HasActive(t, a) <==> (t[0].actorId == a && t[0].revokedAt.None?) || HasActive(t[1..], a) by {
        forall a
          ensures HasActive(t, a) <==> (t[0].actorId == a && t[0].revokedAt.None?) || HasActive(t[1..], a)
        {
          ActiveSplit(t, a);
        }
      }
      if t[0].revokedAt.None? then [t[0].actorId] + rest else rest
  }

  lemma ActiveSplit(t: seq<Credential>, a: Text)
    requires t != []
    ensures HasActive(t, a) <==> (t[0].actorId == a && t[0].revokedAt.None?) || HasActive(t[1..], a)
  {
    if HasActive(t, a) {
      var k :| 0 <= k < |t| && t[k].actorId == a && t[k].revokedAt.None?;
      if k > 0 { assert t[1..][k - 1] == t[k]; }
    }
    if HasActive(t[1..], a) {
      var k :| 0 <= k < |t| - 1 && t[1..][k].actorId == a && t[1..][k].revokedAt.None?;
      assert t[k + 1] == t[1..][k];
    }
  }

  ghost predicate UniqueHashes(t: seq<Credential>) {
    forall i, j :: 0 <= i < j < |t| ==> t[i].tokenHash != t[j].tokenHash
  }

  /** The row a token belongs to, revoked or not. */
  ghost predicate RowOf(t: seq<Credential>, h: Text, k: nat) { k < |t| && t[k].tokenHash == h }

  /** h is the hash of a token with that id, or of that actor. */
  ghost predicate IsOfId(t: seq<Credential>, h: Text, id: Text) { exists k: nat :: RowOf(t, h, k) && t[k].id == id }

  ghost predicate IsOfActor(t: seq<Credential>, h: Text, a: Text) {
    exists k: nat :: RowOf(t, h, k) && t[k].actorId == a
  }

  /** What revoking an id means for a caller: the token of that row is invalid,
      every other token, known or not, authenticates exactly as before, and
      doing it again changes nothing. */
  lemma RevokeMeaning(t: seq<Credential>, actors: set<Text>, h: Text, id: Text, now: int, later: int)
    requires UniqueHashes(t)
    ensures Authentication(RevokedById(t, id, now), actors, h)
            == if IsOfId(t, h, id) then InvalidToken else Authentication(t, actors, h)
    ensures RevokedById(RevokedById(t, id, now), id, later) == RevokedById(t, id, now)
  {
    var u := RevokedById(t, id, now);
    if k: nat :| RowOf(t, h, k) {
      OneLiveRow(t, h, k);
      OneLiveRow(u, h, k);
    } else {
      NoLiveRow(t, h);
      assert forall k: nat :: RowOf(u, h, k) ==> RowOf(t, h, k);
      NoLiveRow(u, h);
    }
  }

  /** And what revoking an actor means: all its tokens are invalid, it is no
      longer active, and nobody else notices. */
  lemma RevokeAllMeaning(t: seq<Credential>, actors: set<Text>, h: Text, a: Text, now: int, b: Text)
    ensures UniqueHashes(t) ==>
              Authentication(RevokedByActor(t, a, now), actors, h)
              == if IsOfActor(t, h, a) then InvalidToken else Authentication(t, actors, h)
    ensures HasActive(RevokedByActor(t, a, now), b) <==> b != a && HasActive(t, b)
  {
    var u := RevokedByActor(t, a, now);
    if UniqueHashes(t) {
      if k: nat :| RowOf(t, h, k) {
        OneLiveRow(t, h, k);
        OneLiveRow(u, h, k);
      } else {
        NoLiveRow(t, h);
        assert forall k: nat :: RowOf(u, h, k) ==> RowOf(t, h, k);
        NoLiveRow(u, h);
      }
    }
    if b != a && HasActive(t, b) {
      var i :| 0 <= i < |t| && t[i].actorId == b && t[i].revokedAt.None?;
      assert u[i] == t[i];
    }
  }

  lemma NoLiveRow(t: seq<Credential>, h: Text)
    requires forall k: nat :: !RowOf(t, h, k)
    ensures FindLive(t, h) == |t|
  {
    var i := FindLive(t, h);
    assert i < |t| ==> RowOf(t, h, i);
  }

  lemma OneLiveRow(t: seq<Credential>, h: Text, k: nat)
    requires UniqueHashes(t) && RowOf(t, h, k)
    ensures FindLive(t, h) == if t[k].revokedAt.None? then k else |t|
  {
  }

  class CredentialStore {
    var rows: seq<Credential>
    var actors: set<Text>
    const hash: Hash

    constructor (hash: Hash)
      ensures rows == [] && actors == {} && this.hash == hash
    {
      rows, actors, this.hash := [], {}, hash;
    }

    /** IssueAgentToken stores only the hash of the token it hands out. */
    method IssueAgentToken(actorId: Text, credentialId: Text, token: Text) returns (ok: bool)
      modifies this`rows
      ensures var c := Credential(credentialId, actorId, hash(token), None, None);
              rows == Inserted(old(rows), c) && (ok <==> !Clashes(old(rows), c))
      ensures ok <==> forall k :: 0 <= k < |old(rows)| ==>
                old(rows)[k].id != credentialId && old(rows)[k].tokenHash != hash(token)
      ensures rows == if ok then old(rows) + [Credential(credentialId, actorId, hash(token), None, None)] else old(rows)
    {
      var c := Credential(credentialId, actorId, hash(token), None, None);
      ok := !Clashes(rows, c);
      if ok { rows := rows + [c]; }
    }

    /** AuthenticateAgentToken: a failing last-used update is only logged. */
    method AuthenticateAgentToken(token: Text, now: int, updateFails: bool) returns (a: Answer)
      modifies this`rows
      ensures a == Authentication(old(rows), actors, hash(token))
      ensures var i := FindLive(old(rows), hash(token));
              rows == if i == |old(rows)| || updateFails then old(rows) else Touched(old(rows), i, now)
      ensures |rows| == |old(rows)|
      ensures UniqueHashes(old(rows)) ==>
                forall k :: 0 <= k < |rows| ==>
                  rows[k] == if !updateFails && old(rows)[k].tokenHash == hash(token) && old(rows)[k].revokedAt.None?
                             then old(rows)[k].(lastUsedAt := Some(now)) else old(rows)[k]
    {
      var i := FindLive(rows, hash(token));
      if i == |rows| { return InvalidToken; }
      var actorId := rows[i].actorId;
      if !updateFails { rows := rows[i := rows[i].(lastUsedAt := Some(now))]; }
      if actorId !in actors { return ActorNotFound; }
      return Authenticated(actorId);
    }

    /** RevokeAgentToken: the unrevoked row of that id is stamped with now, every
        other row is left as it was, and none comes or goes. */
    method RevokeAgentToken(credentialId: Text, now: int)
      modifies this`rows
      ensures |rows| == |old(rows)|
      ensures forall k :: 0 <= k < |rows| ==>
                rows[k] == if old(rows)[k].id == credentialId && old(rows)[k].revokedAt.None?
                           then old(rows)[k].(revokedAt := Some(now)) else old(rows)[k]
      ensures rows == RevokedById(old(rows), credentialId, now)
    {
      for i := 0 to |rows|
        invariant |rows| == |old(rows)|
        invariant forall k :: i <= k < |rows| ==> rows[k] == old(rows)[k]
        invariant forall k :: 0 <= k < i ==>
                    rows[k] == if old(rows)[k].id == credentialId && old(rows)[k].revokedAt.None?
                               then old(rows)[k].(revokedAt := Some(now)) else old(rows)[k]
      {
        if rows[i].id == credentialId && rows[i].revokedAt.None? {
          rows := rows[i := rows[i].(revokedAt := Some(now))];
        }
      }
    }

    /** RevokeAllAgentCredentials: the same for every unrevoked row of an actor. */
    method RevokeAllAgentCredentials(actorId: Text, now: int)
      modifies this`rows
      ensures |rows| == |old(rows)|
      ensures forall k :: 0 <= k < |rows| ==>
                rows[k] == if old(rows)[k].actorId == actorId && old(rows)[k].revokedAt.None?
                           then old(rows)[k].(revokedAt := Some(now)) else old(rows)[k]
      ensures !HasActive(rows, actorId)
      ensures rows == RevokedByActor(old(rows), actorId, now)
    {
      for i := 0 to |rows|
        invariant |rows| == |old(rows)|
        invariant forall k :: i <= k < |rows| ==> rows[k] == old(rows)[k]
        invariant forall k :: 0 <= k < i ==>
                    rows[k] == if old(rows)[k].actorId == actorId && old(rows)[k].revokedAt.None?
                               then old(rows)[k].(revokedAt := Some(now)) else old(rows)[k]
      {
        if rows[i].actorId == actorId && rows[i].revokedAt.None? {
          rows := rows[i := rows[i].(revokedAt := Some(now))];
        }
      }
    }

    /** ActorsWithActiveToken: exactly the actors with an unrevoked row. */
    method ActorsWithActiveToken() returns (active: map<Text, bool>)
      ensures forall a :: a in active <==> HasActive(rows, a)
      ensures forall a :: a in active ==> active[a]
    {
      var ids := ActiveIds(rows);
      active := map[];
      for i := 0 to |ids|
        invariant forall a :: a in active <==> a in ids[..i]
        invariant forall a :: a in active ==> active[a]
      {
        active := active[ids[i] := true];
      }
    }
  }

  // ---------------------------------------------------------------- the runs

  datatype Event =
    | Issue(actorId: Text, id: Text, token: Text)
    | Authenticate(token: Text, now: int, updateFails: bool)
    | Revoke(id: Text, now: int)
    | RevokeAll(actorId: Text, now: int)

  function Step(hash: Hash, t: seq<Credential>, e: Event): seq<Credential> {
    match e
    case Issue(actorId, id, token) => Inserted(t, Credential(id, actorId, hash(token), None, None))
    case Authenticate(token, now, updateFails) =>
      var i := FindLive(t, hash(token));
      if i == |t| || updateFails then t else Touched(t, i, now)
    case Revoke(id, now) => RevokedById(t, id, now)
    case RevokeAll(actorId, now) => RevokedByActor(t, actorId, now)
  }

  function Run(hash: Hash, es: seq<Event>): seq<Credential> {
    if es == [] then [] else Step(hash, Run(hash, es[..|es| - 1]), es[|es| - 1])
  }

  ghost predicate CollisionFree(hash: Hash) {
    forall a, b :: hash(a) == hash(b) ==> a == b
  }

  /** Tokens and credential ids are never generated twice. */
  ghost predicate Fresh(es: seq<Event>) {
    forall i, j :: 0 <= i < j < |es| && es[i].Issue? && es[j].Issue? ==>
      es[i].token != es[j].token && es[i].id != es[j].id
  }

  /** e takes away what the issue event i gave: its own id, or its actor. */
  predicate Revokes(e: Event, i: Event)
    requires i.Issue?
  {
    (e.Revoke? && e.id == i.id) || (e.RevokeAll? && e.actorId == i.actorId)
  }

  /** The history's own verdict, looking at no table: issued at i, and neither
      revoked nor its actor bulk-revoked since. */
  ghost predicate LiveIssue(es: seq<Event>, i: nat) {
    i < |es| && es[i].Issue? && forall j :: i < j < |es| ==> !Revokes(es[j], es[i])
  }

  /** When the issue at i was first revoked, by the history alone. */
  function FirstRevocation(es: seq<Event>, i: nat): Option<int>
    requires i < |es| && es[i].Issue?
    decreases |es|
  {
    if |es| == i + 1 then None
    else
      var b, e := es[..|es| - 1], es[|es| - 1];
      var before := FirstRevocation(b, i);
      if before.Some? then before else if Revokes(e, es[i]) then Some(e.now) else None
  }

  /** It is the time of the first event that revokes the issue; there is none
      exactly when the issue is live. */
  lemma {:induction false} FirstRevocationMeaning(es: seq<Event>, i: nat)
    requires i < |es| && es[i].Issue?
    ensures FirstRevocation(es, i).None? <==> LiveIssue(es, i)
    ensures FirstRevocation(es, i).Some? ==>
              exists j :: i < j < |es| && LiveIssue(es[..j], i) && Revokes(es[j], es[i])
                          && Some(es[j].now) == FirstRevocation(es, i)
    decreases |es|
  {
    if |es| > i + 1 {
      var n, b := |es| - 1, es[..|es| - 1];
      FirstRevocationMeaning(b, i);
      LiveStep(es, i);
      if FirstRevocation(b, i).Some? {
        var j :| i < j < |b| && LiveIssue(b[..j], i) && Revokes(b[j], b[i]) && Some(b[j].now) == FirstRevocation(b, i);
        assert b[..j] == es[..j] && b[j] == es[j];
      } else if Revokes(es[n], es[i]) {
        assert LiveIssue(es[..n], i);
      }
    }
  }

  /** c is the row of the issue at i, with its first revocation's time. */
  ghost predicate Tracks(hash: Hash, es: seq<Event>, i: nat, c: Credential) {
    && i < |es| && es[i].Issue?
    && c.id == es[i].id && c.actorId == es[i].actorId && c.tokenHash == hash(es[i].token)
    && c.revokedAt == FirstRevocation(es, i)
  }

  ghost predicate Tracked(hash: Hash, es: seq<Event>, t: seq<Credential>, i: nat) {
    exists k :: 0 <= k < |t| && Tracks(hash, es, i, t[k])
  }

  ghost predicate Explained(hash: Hash, es: seq<Event>, c: Credential) {
    exists i :: 0 <= i < |es| && Tracks(hash, es, i, c)
  }

  /** Table and history account for each other. */
  ghost predicate Agrees(hash: Hash, es: seq<Event>, t: seq<Credential>) {
    && (forall i :: 0 <= i < |es| && es[i].Issue? ==> Tracked(hash, es, t, i))
    && (forall k :: 0 <= k < |t| ==> Explained(hash, es, t[k]))
  }

  lemma LiveStep(es: seq<Event>, i: nat)
    requires es != [] && i < |es| - 1 && es[i].Issue?
    ensures LiveIssue(es, i) <==> LiveIssue(es[..|es| - 1], i) && !Revokes(es[|es| - 1], es[i])
  {
    var b := es[..|es| - 1];
    if LiveIssue(b, i) && !Revokes(es[|es| - 1], es[i]) {
      forall j | i < j < |es| ensures !Revokes(es[j], es[i]) {
        if j < |b| { assert b[j] == es[j]; }
      }
    }
    if LiveIssue(es, i) {
      forall j | i < j < |b| ensures !Revokes(b[j], b[i]) { assert b[j] == es[j]; }
    }
  }

  /** One event turns a row into the row its history then asks for. */
  function After(e: Event, c: Credential): Option<int> {
    match e
    case Revoke(id, now) => if c.id == id && c.revokedAt.None? then Some(now) else c.revokedAt
    case RevokeAll(a, now) => if c.actorId == a && c.revokedAt.None? then Some(now) else c.revokedAt
    case _ => c.revokedAt
  }

  lemma StepRows(hash: Hash, t: seq<Credential>, e: Event)
    ensures var u := Step(hash, t, e);
            && |t| <= |u|
            && (!e.Issue? ==> |u| == |t|)
            && forall k :: 0 <= k < |t| ==>
                 && u[k].id == t[k].id && u[k].actorId == t[k].actorId && u[k].tokenHash == t[k].tokenHash
                 && u[k].revokedAt == After(e, t[k])
  {
  }

  lemma TracksStep(hash: Hash, es: seq<Event>, i: nat, c: Credential, d: Credential)
    requires es != [] && Tracks(hash, es[..|es| - 1], i, c)
    requires d.id == c.id && d.actorId == c.actorId && d.tokenHash == c.tokenHash
    requires d.revokedAt == After(es[|es| - 1], c)
    ensures Tracks(hash, es, i, d)
  {
    assert es[..|es| - 1][i] == es[i];
  }

  lemma IssueNeverClashes(hash: Hash, es: seq<Event>, t: seq<Credential>)
    requires CollisionFree(hash) && Fresh(es) && es != [] && es[|es| - 1].Issue?
    requires Agrees(hash, es[..|es| - 1], t)
    ensures var e := es[|es| - 1]; !Clashes(t, Credential(e.id, e.actorId, hash(e.token), None, None))
  {
    var b, e := es[..|es| - 1], es[|es| - 1];
    forall k | 0 <= k < |t|
      ensures t[k].id != e.id && t[k].tokenHash != hash(e.token)
    {
      assert Explained(hash, b, t[k]);
      var i :| 0 <= i < |b| && Tracks(hash, b, i, t[k]);
      assert b[i] == es[i];
    }
  }

  lemma StepTracked(hash: Hash, es: seq<Event>, t: seq<Credential>, i: nat)
    requires es != [] && i < |es| - 1 && Tracked(hash, es[..|es| - 1], t, i)
    ensures Tracked(hash, es, Step(hash, t, es[|es| - 1]), i)
  {
    var b, u := es[..|es| - 1], Step(hash, t, es[|es| - 1]);
    StepRows(hash, t, es[|es| - 1]);
    var k :| 0 <= k < |t| && Tracks(hash, b, i, t[k]);
    TracksStep(hash, es, i, t[k], u[k]);
  }

  lemma StepExplained(hash: Hash, es: seq<Event>, t: seq<Credential>, k: nat)
    requires es != [] && k < |t| && Explained(hash, es[..|es| - 1], t[k])
    ensures |t| <= |Step(hash, t, es[|es| - 1])| && Explained(hash, es, Step(hash, t, es[|es| - 1])[k])
  {
    var b, u := es[..|es| - 1], Step(hash, t, es[|es| - 1]);
    StepRows(hash, t, es[|es| - 1]);
    var i :| 0 <= i < |b| && Tracks(hash, b, i, t[k]);
    TracksStep(hash, es, i, t[k], u[k]);
  }

  lemma NewRowTracks(hash: Hash, es: seq<Event>, t: seq<Credential>)
    requires CollisionFree(hash) && Fresh(es) && es != [] && es[|es| - 1].Issue?
    requires Agrees(hash, es[..|es| - 1], t)
    ensures var u := Step(hash, t, es[|es| - 1]);
            |u| == |t| + 1 && Tracks(hash, es, |es| - 1, u[|t|])
  {
    IssueNeverClashes(hash, es, t);
  }

  lemma StepAgrees(hash: Hash, es: seq<Event>, t: seq<Credential>)
    requires CollisionFree(hash) && Fresh(es) && es != [] && Agrees(hash, es[..|es| - 1], t)
    ensures Agrees(hash, es, Step(hash, t, es[|es| - 1]))
  {
    var b, n, e := es[..|es| - 1], |es| - 1, es[|es| - 1];
    var u := Step(hash, t, e);
    StepRows(hash, t, e);
    if e.Issue? { NewRowTracks(hash, es, t); }
    forall i | 0 <= i < |es| && es[i].Issue?
      ensures Tracked(hash, es, u, i)
    {
      if i < n {
        assert b[i] == es[i];
        StepTracked(hash, es, t, i);
      }
    }
    forall k | 0 <= k < |u|
      ensures Explained(hash, es, u[k])
    {
      if k < |t| { StepExplained(hash, es, t, k); }
    }
  }

  lemma {:induction false} RunAgrees(hash: Hash, es: seq<Event>)
    requires CollisionFree(hash) && Fresh(es)
    ensures Agrees(hash, es, Run(hash, es))
  {
    if es != [] {
      var b := es[..|es| - 1];
      assert Fresh(b) by {
        forall i, j | 0 <= i < j < |b| && b[i].Issue? && b[j].Issue?
          ensures b[i].token != b[j].token && b[i].id != b[j].id
        {
          assert b[i] == es[i] && b[j] == es[j];
        }
      }
      RunAgrees(hash, b);
      StepAgrees(hash, es, Run(hash, b));
    }
  }

  /** In every run each hash has one row: what the two meaning lemmas of the
      revocations stand on. */
  lemma {:induction false} RunUniqueHashes(hash: Hash, es: seq<Event>)
    ensures UniqueHashes(Run(hash, es))
  {
    if es != [] {
      RunUniqueHashes(hash, es[..|es| - 1]);
      StepRows(hash, Run(hash, es[..|es| - 1]), es[|es| - 1]);
    }
  }

  // ------------------------------------------------------------ the theorems

  /** The history holds a live issue of token to a. */
  ghost predicate HoldsLive(es: seq<Event>, token: Text, a: Text) {
    exists i: nat :: LiveIssue(es, i) && es[i].token == token && es[i].actorId == a
  }

  ghost predicate HoldsAny(es: seq<Event>, a: Text) {
    exists i: nat :: LiveIssue(es, i) && es[i].actorId == a
  }

  lemma FoundIsLive(hash: Hash, es: seq<Event>, t: seq<Credential>, token: Text)
    requires CollisionFree(hash) && Agrees(hash, es, t) && FindLive(t, hash(token)) < |t|
    ensures HoldsLive(es, token, t[FindLive(t, hash(token))].actorId)
  {
    var k := FindLive(t, hash(token));
    assert Explained(hash, es, t[k]);
    var i :| 0 <= i < |es| && Tracks(hash, es, i, t[k]);
    FirstRevocationMeaning(es, i);
  }

  lemma LiveRowIsFound(t: seq<Credential>, h: Text, k: nat)
    requires k < |t| && t[k].tokenHash == h && t[k].revokedAt.None?
    ensures FindLive(t, h) < |t|
  {
  }

  lemma LiveIsFound(hash: Hash, es: seq<Event>, t: seq<Credential>, token: Text, a: Text)
    requires Agrees(hash, es, t) && HoldsLive(es, token, a)
    ensures FindLive(t, hash(token)) < |t|
  {
    var i: nat :| LiveIssue(es, i) && es[i].token == token && es[i].actorId == a;
    assert FirstRevocation(es, i).None? by { FirstRevocationMeaning(es, i); }
    assert Tracked(hash, es, t, i);
    var k: nat :| k < |t| && Tracks(hash, es, i, t[k]);
    LiveRowIsFound(t, hash(token), k);
  }

  lemma OneHolder(es: seq<Event>, token: Text, a: Text, b: Text)
    requires Fresh(es) && HoldsLive(es, token, a) && HoldsLive(es, token, b)
    ensures a == b
  {
    var i: nat :| LiveIssue(es, i) && es[i].token == token && es[i].actorId == a;
    var j: nat :| LiveIssue(es, j) && es[j].token == token && es[j].actorId == b;
  }

  /** In every run a token authenticates as actor a exactly when it was issued
      to a, since then neither revoked by its id nor by a bulk revocation of a,
      and a still exists; if only the last is missing, the actor is reported not
      found, and in every other case the token is invalid. */
  lemma AuthenticatesExactly(hash: Hash, es: seq<Event>, actors: set<Text>, token: Text)
    requires CollisionFree(hash) && Fresh(es)
    ensures var r := Authentication(Run(hash, es), actors, hash(token));
            && (forall a :: r == Authenticated(a) <==> HoldsLive(es, token, a) && a in actors)
            && (r == ActorNotFound <==> exists a :: HoldsLive(es, token, a) && a !in actors)
            && (r == InvalidToken <==> forall a :: !HoldsLive(es, token, a))
  {
    RunAgrees(hash, es);
    var t := Run(hash, es);
    var k := FindLive(t, hash(token));
    if k < |t| {
      FoundIsLive(hash, es, t, token);
      forall a | HoldsLive(es, token, a)
        ensures a == t[k].actorId
      {
        OneHolder(es, token, a, t[k].actorId);
      }
    } else {
      forall a
        ensures !HoldsLive(es, token, a)
      {
        if HoldsLive(es, token, a) { LiveIsFound(hash, es, t, token, a); }
      }
    }
  }

  /** The active set says the same of every actor as authentication does. */
  lemma ActiveExactly(hash: Hash, es: seq<Event>, a: Text)
    requires CollisionFree(hash) && Fresh(es)
    ensures a in ActiveIds(Run(hash, es)) <==> HoldsAny(es, a)
  {
    RunAgrees(hash, es);
    var t := Run(hash, es);
    if HasActive(t, a) { ActiveIsHeld(hash, es, t, a); }
    if HoldsAny(es, a) { HeldIsActive(hash, es, t, a); }
  }

  lemma ActiveIsHeld(hash: Hash, es: seq<Event>, t: seq<Credential>, a: Text)
    requires Agrees(hash, es, t) && HasActive(t, a)
    ensures HoldsAny(es, a)
  {
    var k :| 0 <= k < |t| && t[k].actorId == a && t[k].revokedAt.None?;
    assert Explained(hash, es, t[k]);
    var i :| 0 <= i < |es| && Tracks(hash, es, i, t[k]);
    FirstRevocationMeaning(es, i);
  }

  lemma HeldIsActive(hash: Hash, es: seq<Event>, t: seq<Credential>, a: Text)
    requires Agrees(hash, es, t) && HoldsAny(es, a)
    ensures HasActive(t, a)
  {
    var i: nat :| LiveIssue(es, i) && es[i].actorId == a;
    FirstRevocationMeaning(es, i);
    assert Tracked(hash, es, t, i);
    var k :| 0 <= k < |t| && Tracks(hash, es, i, t[k]);
  }

  /** In every run each issue has its row, stamped with the time of the first
      event that revoked it, or unstamped. */
  lemma RowsCarryFirstRevocation(hash: Hash, es: seq<Event>, i: nat)
    requires CollisionFree(hash) && Fresh(es) && i < |es| && es[i].Issue?
    ensures exists k :: 0 <= k < |Run(hash, es)| && Run(hash, es)[k].id == es[i].id
                        && Run(hash, es)[k].revokedAt == FirstRevocation(es, i)
  {
    RunAgrees(hash, es);
    assert Tracked(hash, es, Run(hash, es), i);
  }

  /** Revocation times are never overwritten, and no row ever disappears. */
  lemma {:induction false} RevocationIsFinal(hash: Hash, es: seq<Event>, n: nat, k: nat)
    requires n <= |es| && k < |Run(hash, es[..n])| && Run(hash, es[..n])[k].revokedAt.Some?
    ensures k < |Run(hash, es)| && Run(hash, es)[k].id == Run(hash, es[..n])[k].id
    ensures Run(hash, es)[k].tokenHash == Run(hash, es[..n])[k].tokenHash
    ensures Run(hash, es)[k].revokedAt == Run(hash, es[..n])[k].revokedAt
    decreases |es|
  {
    if n == |es| {
      assert es[..n] == es;
    } else {
      var b := es[..|es| - 1];
      assert b[..n] == es[..n];
      RevocationIsFinal(hash, b, n, k);
      StepRows(hash, Run(hash, b), es[|es| - 1]);
    }
  }

  /** e is a revocation that covers the row c. */
  predicate Covers(e: Event, c: Credential) {
    (e.Revoke? && e.id == c.id) || (e.RevokeAll? && e.actorId == c.actorId)
  }

  /** Revoked for good: in every run, with any tokens, ids and hash function, a
      token whose row an event revoked is invalid ever after. */
  lemma RevokedStaysInvalid(hash: Hash, es: seq<Event>, n: nat, k: nat, actors: set<Text>)
    requires n < |es| && k < |Run(hash, es[..n])| && Covers(es[n], Run(hash, es[..n])[k])
    ensures Authentication(Run(hash, es), actors, Run(hash, es[..n])[k].tokenHash) == InvalidToken
  {
    var t, e, b := Run(hash, es[..n]), es[n], es[..n + 1];
    assert b[..n] == es[..n];
    StepRows(hash, t, e);
    RevocationIsFinal(hash, es, n + 1, k);
    RunUniqueHashes(hash, es);
    OneLiveRow(Run(hash, es), t[k].tokenHash, k);
  }
}
