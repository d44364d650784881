/** Document permissions: the checker's rules, the three access definitions and how scopes change. */
module DocumentAccess {
  import opened Wrappers
  import opened Decimal

  type DocId = nat

  datatype Permission = Read | Write | Admin
  {
    function Level(): nat {
      match this
      case Read => 1
      case Write => 2
      case Admin => 3
    }

    predicate Satisfies(required: Permission) { Level() >= required.Level() }
  }

  datatype PrincipalType = User | Tenant

  datatype Auth = Auth(userId: int, tenantId: int)

  datatype Document = Document(tenantId: int, owner: string, deleted: bool)

  datatype Scope = Scope(doc: DocId, tenantId: int, ptype: PrincipalType, pid: string, permission: Permission)
  {
    predicate HasKey(d: DocId, t: PrincipalType, p: string) { doc == d && ptype == t && pid == p }
  }

  /** users maps an existing user to its tenant; scopes are the permission rows in id order. */
  datatype Tables = Tables(users: map<int, int>, docs: map<DocId, Document>, scopes: seq<Scope>)

  datatype Error = DocumentNotFound | Forbidden | PrincipalNotFound | OwnerPermissionNotRevocable | PermissionNotFound

  // ----- the checker ----------------------------------------------------------------------

  /** Granted to the requester or to the requester's tenant. */
  predicate Concerns(s: Scope, auth: Auth) {
    && s.tenantId == auth.tenantId
    && ((s.ptype.User? && s.pid == Print(auth.userId)) || (s.ptype.Tenant? && s.pid == Print(auth.tenantId)))
  }

  /** The permissions granted on one document. */
  function Granted(rows: seq<Scope>, auth: Auth, d: DocId): seq<Permission> {
    if rows == [] then [] else
      (if rows[0].doc == d && Concerns(rows[0], auth) then [rows[0].permission] else [])
      + Granted(rows[1..], auth, d)
  }

  /** maxByOrNull on the level: the first of the highest. */
  function Highest(ps: seq<Permission>): Option<Permission> {
    if ps == [] then None else
      match Highest(ps[1..])
      case None => Some(ps[0])
      case Some(p) => if p.Level() > ps[0].Level() then Some(p) else Some(ps[0])
  }

  function EffectivePermission(t: Tables, auth: Auth, d: DocId): Option<Permission>
    requires d in t.docs
  {
    if t.docs[d].owner == Print(auth.userId) then Some(Admin) else Highest(Granted(t.scopes, auth, d))
  }

  predicate IsActive(t: Tables, auth: Auth, d: DocId) {
    d in t.docs && t.docs[d].tenantId == auth.tenantId && !t.docs[d].deleted
  }

  function Require(t: Tables, auth: Auth, d: DocId, required: Permission): Result<Document, Error> {
    if !IsActive(t, auth, d) then Err(DocumentNotFound)
    else
      match EffectivePermission(t, auth, d)
      case None => Err(Forbidden)
      case Some(p) => if p.Satisfies(required) then Ok(t.docs[d]) else Err(Forbidden)
  }

  /** One query for all documents: the rows of the others, grouped by document. */
  function GrantRows(rows: seq<Scope>, auth: Auth, ids: set<DocId>): seq<Scope> {
    if rows == [] then [] else
      (if rows[0].doc in ids && Concerns(rows[0], auth) then [rows[0]] else []) + GrantRows(rows[1..], auth, ids)
  }

  function GroupOf(rows: seq<Scope>, d: DocId): seq<Permission> {
    if rows == [] then [] else (if rows[0].doc == d then [rows[0].permission] else []) + GroupOf(rows[1..], d)
  }

  function EffectivePermissions(t: Tables, auth: Auth, documents: seq<DocId>): map<DocId, Permission>
    requires forall d | d in documents :: d in t.docs
  {
    var owned := set d | d in documents && t.docs[d].owner == Print(auth.userId);
    var others := set d | d in documents && d !in owned;
    var rows := GrantRows(t.scopes, auth, others);
    var granted := map d | d in others && Highest(GroupOf(rows, d)).Some? :: Highest(GroupOf(rows, d)).value;
    granted + map d | d in owned :: Admin
  }

  lemma {:induction false} GroupIsGranted(rows: seq<Scope>, auth: Auth, ids: set<DocId>, d: DocId)
    requires d in ids
    ensures GroupOf(GrantRows(rows, auth, ids), d) == Granted(rows, auth, d)
  {
    if rows != [] {
      GroupIsGranted(rows[1..], auth, ids, d);
      var rest := GrantRows(rows[1..], auth, ids);
      if rows[0].doc in ids && Concerns(rows[0], auth) {
        assert ([rows[0]] + rest)[1..] == rest;
      } else {
        assert [] + rest == rest;
      }
    }
  }

  /** The batch lookup is the single lookup, document by document. */
  lemma {:induction false} BatchIsSingle(t: Tables, auth: Auth, documents: seq<DocId>)
    requires forall d | d in documents :: d in t.docs
    ensures var m := EffectivePermissions(t, auth, documents);
      && (forall d | d in m :: d in documents)
      && (forall d | d in documents ::
            EffectivePermission(t, auth, d) == if d in m then Some(m[d]) else None)
  {
    var owned := set d | d in documents && t.docs[d].owner == Print(auth.userId);
    var others := set d | d in documents && d !in owned;
    forall d | d in others
      ensures GroupOf(GrantRows(t.scopes, auth, others), d) == Granted(t.scopes, auth, d)
    {
      GroupIsGranted(t.scopes, auth, others, d);
    }
  }

  // ----- what the checker answers ---------------------------------------------------------

  /** The key of a scope row, as the checker compares it with a requester. */
  predicate KeyConcerns(ptype: PrincipalType, pid: string, auth: Auth) {
    pid == if ptype.User? then Print(auth.userId) else Print(auth.tenantId)
  }

  /** A row grants on the document to this requester. */
  ghost predicate GrantsTo(s: Scope, auth: Auth, d: DocId) {
    s.doc == d && s.tenantId == auth.tenantId && KeyConcerns(s.ptype, s.pid, auth)
  }

  lemma {:induction false} HighestIs(rows: seq<Scope>, auth: Auth, d: DocId)
    ensures var p := Highest(Granted(rows, auth, d));
      && (p.None? <==> forall s | s in rows :: !GrantsTo(s, auth, d))
      && (p.Some? ==> exists s :: s in rows && GrantsTo(s, auth, d) && s.permission == p.value)
      && (forall s | s in rows && GrantsTo(s, auth, d) :: p.Some? && s.permission.Level() <= p.value.Level())
  {
    if rows != [] {
      HighestIs(rows[1..], auth, d);
      assert forall s :: s in rows <==> s == rows[0] || s in rows[1..];
      assert Concerns(rows[0], auth) <==> rows[0].tenantId == auth.tenantId && KeyConcerns(rows[0].ptype, rows[0].pid, auth);
      var rest := Granted(rows[1..], auth, d);
      if GrantsTo(rows[0], auth, d) {
        assert Granted(rows, auth, d) == [rows[0].permission] + rest;
        assert Granted(rows, auth, d)[1..] == rest;
      } else {
        assert Granted(rows, auth, d) == rest;
      }
    }
  }

  /**
    The owner is ADMIN; everybody else has exactly the highest level that some row grants, and
    none when no row does.
   */
  lemma EffectivePermissionIs(t: Tables, auth: Auth, d: DocId, p: Permission)
    requires d in t.docs
    ensures EffectivePermission(t, auth, d) == Some(p) <==>
      if t.docs[d].owner == Print(auth.userId) then p == Admin
      else
        && (exists s :: s in t.scopes && GrantsTo(s, auth, d) && s.permission == p)
        && (forall s | s in t.scopes && GrantsTo(s, auth, d) :: s.permission.Level() <= p.Level())
  {
    HighestIs(t.scopes, auth, d);
    LevelsDiffer();
    hide GrantsTo, Granted, Highest;
  }

  lemma LevelsDiffer()
    ensures forall p: Permission, q: Permission :: p.Level() == q.Level() ==> p == q
  {
  }

  /** READ is covered by every level, WRITE by itself and ADMIN, ADMIN by itself. */
  predicate Covers(held: Permission, required: Permission) {
    required == Read || held == Admin || held == required
  }

  /** The owner, or somebody to whom a row grants enough. */
  ghost predicate OpenTo(t: Tables, auth: Auth, d: DocId, required: Permission)
    requires d in t.docs
  {
    || t.docs[d].owner == Print(auth.userId)
    || exists s :: s in t.scopes && GrantsTo(s, auth, d) && Covers(s.permission, required)
  }

  /** Which document a request may use, and which of the two errors it gets. */
  lemma RequireIff(t: Tables, auth: Auth, d: DocId, required: Permission)
    ensures var r := Require(t, auth, d, required);
      var active := d in t.docs && t.docs[d].tenantId == auth.tenantId && !t.docs[d].deleted;
      && (r == Err(DocumentNotFound) <==> !active)
      && (r.Ok? <==> active && OpenTo(t, auth, d, required))
      && (r.Err? && active ==> r == Err(Forbidden))
      && (r.Ok? ==> r.value == t.docs[d])
  {
    HighestIs(t.scopes, auth, d);
    LevelsCover();
    hide GrantsTo, Granted, Highest;
  }

  lemma LevelsCover()
    ensures forall p: Permission, q: Permission :: Covers(p, q) <==> p.Satisfies(q)
    ensures forall p: Permission, q: Permission, r: Permission :: p.Level() <= q.Level() && Covers(p, r) ==> Covers(q, r)
  {
  }

  // ----- three definitions of "may see the document" --------------------------------------

  /** The listing query: owner, or any scope that concerns the requester. */
  predicate Listed(t: Tables, auth: Auth, d: DocId) {
    && IsActive(t, auth, d)
    && (t.docs[d].owner == Print(auth.userId)
        || exists s | s in t.scopes :: s.doc == d && Concerns(s, auth))
  }

  /** The search query: a scope with one of the named permissions; ownership is not looked at. */
  predicate InSearch(t: Tables, auth: Auth, d: DocId) {
    && IsActive(t, auth, d)
    && exists s | s in t.scopes ::
         s.doc == d && s.permission in {Read, Write, Admin} && Concerns(s, auth)
  }

  predicate Readable(t: Tables, auth: Auth, d: DocId) { Require(t, auth, d, Read).Ok? }

  // ----- how the tables change ------------------------------------------------------------

  datatype Action =
    | Create(auth: Auth, d: DocId)
    | Delete(auth: Auth, d: DocId)
    | Grant(auth: Auth, d: DocId, ptype: PrincipalType, pid: string, permission: Permission)
    | Revoke(auth: Auth, d: DocId, ptype: PrincipalType, pid: string)

  /** Only principals that exist in the requester's tenant. */
  predicate ValidPrincipal(t: Tables, auth: Auth, ptype: PrincipalType, pid: string) {
    match ParseLong(pid)
    case None => false
    case Some(id) =>
      match ptype
      case User => id in t.users && t.users[id] == auth.tenantId
      case Tenant => id == auth.tenantId
  }

  predicate HasScope(rows: seq<Scope>, d: DocId, ptype: PrincipalType, pid: string) {
    exists s | s in rows :: s.HasKey(d, ptype, pid)
  }

  /** What the request answers before anything is written. */
  function Check(t: Tables, a: Action): Result<(), Error> {
    match a
    case Create(auth, d) => Ok(())
    case Delete(auth, d) => Guard(t, auth, d, Write)
    case Grant(auth, d, ptype, pid, _) =>
      if Guard(t, auth, d, Admin).Err? then Guard(t, auth, d, Admin)
      else if !ValidPrincipal(t, auth, ptype, pid) then Err(PrincipalNotFound)
      else Ok(())
    case Revoke(auth, d, ptype, pid) =>
      if Guard(t, auth, d, Admin).Err? then Guard(t, auth, d, Admin)
      else if ptype.User? && pid == t.docs[d].owner then Err(OwnerPermissionNotRevocable)
      else if !HasScope(t.scopes, d, ptype, pid) then Err(PermissionNotFound)
      else Ok(())
  }

  function Guard(t: Tables, auth: Auth, d: DocId, required: Permission): (r: Result<(), Error>)
    ensures r.Ok? ==> IsActive(t, auth, d)
  {
    match Require(t, auth, d, required)
    case Ok(_) => Ok(())
    case Err(e) => Err(e)
  }

  function Relevel(rows: seq<Scope>, d: DocId, ptype: PrincipalType, pid: string, p: Permission): seq<Scope> {
    if rows == [] then [] else
      [if rows[0].HasKey(d, ptype, pid) then rows[0].(permission := p) else rows[0]]
      + Relevel(rows[1..], d, ptype, pid, p)
  }

  function Without(rows: seq<Scope>, d: DocId, ptype: PrincipalType, pid: string): seq<Scope> {
    if rows == [] then [] else
      (if rows[0].HasKey(d, ptype, pid) then [] else [rows[0]]) + Without(rows[1..], d, ptype, pid)
  }

  /** A new document: ADMIN for its owner and READ for the tenant. */
  function InitialScopes(auth: Auth, d: DocId): seq<Scope> {
    [Scope(d, auth.tenantId, User, Print(auth.userId), Admin),
     Scope(d, auth.tenantId, Tenant, Print(auth.tenantId), Read)]
  }

  function Apply(t: Tables, a: Action): Tables {
    if Check(t, a).Err? then t else
    match a
    case Create(auth, d) =>
      if d in t.docs then t  // identity keys are fresh
      else t.(docs := t.docs[d := Document(auth.tenantId, Print(auth.userId), false)],
              scopes := t.scopes + InitialScopes(auth, d))
    case Delete(auth, d) => t.(docs := t.docs[d := t.docs[d].(deleted := true)])
    case Grant(auth, d, ptype, pid, p) =>
      if HasScope(t.scopes, d, ptype, pid) then t.(scopes := Relevel(t.scopes, d, ptype, pid, p))
      else t.(scopes := t.scopes + [Scope(d, t.docs[d].tenantId, ptype, pid, p)])
    case Revoke(auth, d, ptype, pid) => t.(scopes := Without(t.scopes, d, ptype, pid))
  }

  function Exec(t: Tables, run: seq<Action>): Tables {
    if run == [] then t else Apply(Exec(t, run[..|run| - 1]), run[|run| - 1])
  }

  function Empty(users: map<int, int>): Tables { Tables(users, map[], []) }

  // ----- the invariant --------------------------------------------------------------------

  ghost predicate ScopesInTenant(t: Tables) {
    forall s | s in t.scopes :: s.doc in t.docs && s.tenantId == t.docs[s.doc].tenantId
  }

  ghost predicate KeysUnique(rows: seq<Scope>) {
    forall i, k | 0 <= i < k < |rows| :: !rows[k].HasKey(rows[i].doc, rows[i].ptype, rows[i].pid)
  }

  /** The owner's own row may be re-levelled but is always there. */
  ghost predicate OwnersHaveScope(t: Tables) {
    forall d | d in t.docs :: HasScope(t.scopes, d, User, t.docs[d].owner)
  }

  ghost predicate Inv(t: Tables) {
    ScopesInTenant(t) && KeysUnique(t.scopes) && OwnersHaveScope(t)
  }

  lemma {:induction false} RelevelRows(rows: seq<Scope>, d: DocId, ptype: PrincipalType, pid: string, p: Permission)
    ensures var r := Relevel(rows, d, ptype, pid, p);
      && |r| == |rows|
      && forall i | 0 <= i < |rows| ::
           r[i] == if rows[i].HasKey(d, ptype, pid) then rows[i].(permission := p) else rows[i]
  {
    if rows != [] {
      RelevelRows(rows[1..], d, ptype, pid, p);
    }
  }

  lemma {:induction false} WithoutRows(rows: seq<Scope>, d: DocId, ptype: PrincipalType, pid: string)
    ensures forall s :: s in Without(rows, d, ptype, pid) <==> s in rows && !s.HasKey(d, ptype, pid)
    ensures KeysUnique(rows) ==> KeysUnique(Without(rows, d, ptype, pid))
  {
    if rows != [] {
      var rest := Without(rows[1..], d, ptype, pid);
      WithoutRows(rows[1..], d, ptype, pid);
      assert forall s :: s in rows <==> s == rows[0] || s in rows[1..];
      if KeysUnique(rows) {
        assert KeysUnique(rows[1..]);
        forall i | 0 <= i < |rest|
          ensures !rest[i].HasKey(rows[0].doc, rows[0].ptype, rows[0].pid)
        {
          assert rest[i] in rows[1..];
        }
      }
    }
  }

  lemma GrantKeepsInv(t: Tables, a: Action)
    requires Inv(t) && a.Grant?
    ensures Inv(Apply(t, a))
  {
    if Check(t, a).Ok? {
      if HasScope(t.scopes, a.d, a.ptype, a.pid) {
        RelevelKeepsInv(t, a.d, a.ptype, a.pid, a.permission);
      } else {
        AddKeepsInv(t, Scope(a.d, t.docs[a.d].tenantId, a.ptype, a.pid, a.permission));
      }
    }
  }

  lemma RelevelKeepsInv(t: Tables, d: DocId, ptype: PrincipalType, pid: string, p: Permission)
    requires Inv(t)
    ensures Inv(t.(scopes := Relevel(t.scopes, d, ptype, pid, p)))
  {
    var rows := Relevel(t.scopes, d, ptype, pid, p);
    RelevelRows(t.scopes, d, ptype, pid, p);
    hide Relevel;
    SameKeysSameInv(t, rows);
  }

  lemma SameKeysSameInv(t: Tables, rows: seq<Scope>)
    requires Inv(t) && |rows| == |t.scopes|
    requires forall i | 0 <= i < |rows| :: rows[i].(permission := t.scopes[i].permission) == t.scopes[i]
    ensures Inv(t.(scopes := rows))
  {
    assert ScopesInTenant(t.(scopes := rows));
    assert KeysUnique(rows);
    forall e | e in t.docs
      ensures HasScope(rows, e, User, t.docs[e].owner)
    {
      hide KeysUnique, ScopesInTenant;
      var i :| 0 <= i < |t.scopes| && t.scopes[i].HasKey(e, User, t.docs[e].owner);
      assert rows[i] in rows && rows[i].HasKey(e, User, t.docs[e].owner);
    }
  }

  lemma AddKeepsInv(t: Tables, s: Scope)
    requires Inv(t) && s.doc in t.docs && s.tenantId == t.docs[s.doc].tenantId
    requires !HasScope(t.scopes, s.doc, s.ptype, s.pid)
    ensures Inv(t.(scopes := t.scopes + [s]))
  {
    AppendKeeps(t.scopes, [s]);
    forall i | 0 <= i < |t.scopes|
      ensures !s.HasKey(t.scopes[i].doc, t.scopes[i].ptype, t.scopes[i].pid)
    {
      assert t.scopes[i] in t.scopes;
    }
  }

  lemma AppendKeeps(rows: seq<Scope>, more: seq<Scope>)
    ensures forall s :: s in rows + more <==> s in rows || s in more
    ensures forall d, ptype, pid :: HasScope(rows, d, ptype, pid) ==> HasScope(rows + more, d, ptype, pid)
  {
  }

  lemma RevokeKeepsInv(t: Tables, a: Action)
    requires Inv(t) && a.Revoke?
    ensures Inv(Apply(t, a))
  {
    if Check(t, a).Ok? {
      var t' := Apply(t, a);
      WithoutRows(t.scopes, a.d, a.ptype, a.pid);
      forall d | d in t'.docs
        ensures HasScope(t'.scopes, d, User, t'.docs[d].owner)
      {
        var s :| s in t.scopes && s.HasKey(d, User, t.docs[d].owner);
        assert s in t'.scopes;
      }
    }
  }

  lemma CreateKeepsInv(t: Tables, a: Action)
    requires Inv(t) && a.Create?
    ensures Inv(Apply(t, a))
  {
    if a.d !in t.docs {
      var t' := Apply(t, a);
      var more := InitialScopes(a.auth, a.d);
      AppendKeeps(t.scopes, more);
      assert more[0] in t'.scopes;
      forall i, k | 0 <= i < k < |t'.scopes|
        ensures !t'.scopes[k].HasKey(t'.scopes[i].doc, t'.scopes[i].ptype, t'.scopes[i].pid)
      {
        if i < |t.scopes| {
          assert t.scopes[i] in t.scopes;
        }
      }
    }
  }

  lemma {:induction false} InvInEveryState(users: map<int, int>, run: seq<Action>)
    ensures Inv(Exec(Empty(users), run))
  {
    if run != [] {
      var pre, a := run[..|run| - 1], run[|run| - 1];
      InvInEveryState(users, pre);
      var t := Exec(Empty(users), pre);
      hide Apply;
      match a {
        case Create(_, _) => CreateKeepsInv(t, a);
        case Grant(_, _, _, _, _) => GrantKeepsInv(t, a);
        case Revoke(_, _, _, _) => RevokeKeepsInv(t, a);
        case Delete(_, _) => DeleteKeepsInv(t, a);
      }
    }
  }

  lemma DeleteKeepsInv(t: Tables, a: Action)
    requires Inv(t) && a.Delete?
    ensures Inv(Apply(t, a))
  {
  }

  // ----- what follows ---------------------------------------------------------------------

  lemma {:induction false} GrantedIffScope(rows: seq<Scope>, auth: Auth, d: DocId)
    ensures Granted(rows, auth, d) != [] <==> exists s | s in rows :: s.doc == d && Concerns(s, auth)
    ensures Highest(Granted(rows, auth, d)).Some? <==> Granted(rows, auth, d) != []
  {
    if rows != [] {
      GrantedIffScope(rows[1..], auth, d);
      assert forall s :: s in rows <==> s == rows[0] || s in rows[1..];
    }
  }

  lemma AnyPermissionSearches(t: Tables, auth: Auth, d: DocId, s: Scope)
    requires IsActive(t, auth, d) && s in t.scopes && s.doc == d && Concerns(s, auth)
    ensures InSearch(t, auth, d)
  {
    assert s.permission in {Read, Write, Admin} by {
      match s.permission {
        case Read =>
        case Write =>
        case Admin =>
      }
    }
  }

  /** In every reachable state listing, single check and search accept the same documents. */
  lemma {:induction false} AccessDefinitionsAgree(users: map<int, int>, run: seq<Action>, auth: Auth, d: DocId)
    ensures var t := Exec(Empty(users), run);
      && (Listed(t, auth, d) <==> Readable(t, auth, d))
      && (Readable(t, auth, d) <==> InSearch(t, auth, d))
  {
    var t := Exec(Empty(users), run);
    InvInEveryState(users, run);
    GrantedIffScope(t.scopes, auth, d);
    hide Exec;
    if IsActive(t, auth, d) && t.docs[d].owner == Print(auth.userId) {
      var s :| s in t.scopes && s.HasKey(d, User, t.docs[d].owner);
      assert s.doc == d && Concerns(s, auth);
      AnyPermissionSearches(t, auth, d, s);
    } else if Listed(t, auth, d) {
      var s :| s in t.scopes && s.doc == d && Concerns(s, auth);
      AnyPermissionSearches(t, auth, d, s);
    }
  }

  /** So the response mapper always finds a permission for a listed document. */
  lemma {:induction false} ListedHavePermission(t: Tables, auth: Auth, page: seq<DocId>)
    requires forall d | d in page :: Listed(t, auth, d)
    ensures forall d | d in page :: d in t.docs
    ensures forall d | d in page :: d in EffectivePermissions(t, auth, page)
  {
    BatchIsSingle(t, auth, page);
    forall d | d in page
      ensures EffectivePermission(t, auth, d).Some?
    {
      GrantedIffScope(t.scopes, auth, d);
    }
  }

  /** The text is the number of a user of the requester's tenant, or of that tenant itself. */
  ghost predicate IsPrincipal(t: Tables, auth: Auth, ptype: PrincipalType, pid: string, id: int) {
    && ParseLong(pid) == Some(id)
    && if ptype.User? then id in t.users && t.users[id] == auth.tenantId else id == auth.tenantId
  }

  /** What a grant needs, error by error: ADMIN on the document, then a principal of the own tenant. */
  lemma GrantAnswered(t: Tables, auth: Auth, d: DocId, ptype: PrincipalType, pid: string, p: Permission)
    ensures var r := Check(t, Grant(auth, d, ptype, pid, p));
      r == if Require(t, auth, d, Admin).Err? then Err(Require(t, auth, d, Admin).error)
           else if exists id :: IsPrincipal(t, auth, ptype, pid, id) then Ok(())
           else Err(PrincipalNotFound)
  {
    if ValidPrincipal(t, auth, ptype, pid) {
      assert IsPrincipal(t, auth, ptype, pid, ParseLong(pid).value);
    }
  }

  /** An accepted grant leaves exactly one row with its key, at the granted level, and all other rows. */
  lemma GrantedRows(t: Tables, a: Action)
    requires Inv(t) && a.Grant? && Check(t, a).Ok?
    ensures var t' := Apply(t, a);
      && a.d in t.docs && t'.docs == t.docs && t'.users == t.users
      && forall s :: s in t'.scopes <==>
           || (s in t.scopes && !s.HasKey(a.d, a.ptype, a.pid))
           || s == Scope(a.d, t.docs[a.d].tenantId, a.ptype, a.pid, a.permission)
  {
    var granted := Scope(a.d, t.docs[a.d].tenantId, a.ptype, a.pid, a.permission);
    hide Require, ValidPrincipal;
    if HasScope(t.scopes, a.d, a.ptype, a.pid) {
      forall s {
        RelevelMember(t.scopes, granted, s);
      }
    } else {
      AppendKeeps(t.scopes, [granted]);
    }
  }

  lemma {:induction false} RelevelMember(rows: seq<Scope>, granted: Scope, s: Scope)
    requires forall r | r in rows && r.HasKey(granted.doc, granted.ptype, granted.pid) :: r.tenantId == granted.tenantId
    ensures s in Relevel(rows, granted.doc, granted.ptype, granted.pid, granted.permission) <==>
      || (s in rows && !s.HasKey(granted.doc, granted.ptype, granted.pid))
      || (s == granted && HasScope(rows, granted.doc, granted.ptype, granted.pid))
  {
    if rows != [] {
      RelevelMember(rows[1..], granted, s);
      assert forall r :: r in rows <==> r == rows[0] || r in rows[1..];
      var rest := Relevel(rows[1..], granted.doc, granted.ptype, granted.pid, granted.permission);
      var head := Relevel(rows, granted.doc, granted.ptype, granted.pid, granted.permission)[0];
      assert s in [head] + rest <==> s == head || s in rest;
    }
  }

  /** An accepted revoke removes the row of its key and nothing else. */
  lemma RevokedRows(t: Tables, a: Action)
    requires a.Revoke? && Check(t, a).Ok?
    ensures var t' := Apply(t, a);
      && t'.docs == t.docs && t'.users == t.users
      && (exists s :: s in t.scopes && s.HasKey(a.d, a.ptype, a.pid))
      && forall s :: s in t'.scopes <==> s in t.scopes && !s.HasKey(a.d, a.ptype, a.pid)
  {
    WithoutRows(t.scopes, a.d, a.ptype, a.pid);
  }

  /** A new document is its creator's, who is ADMIN, and its tenant may read it. */
  lemma CreatedRights(t: Tables, auth: Auth, d: DocId, other: Auth)
    requires Inv(t) && d !in t.docs
    requires other.tenantId == auth.tenantId && Print(other.userId) != Print(auth.userId)
    ensures var t' := Apply(t, Create(auth, d));
      && d in t'.docs && !t'.docs[d].deleted
      && EffectivePermission(t', auth, d) == Some(Admin)
      && EffectivePermission(t', other, d) == Some(Read)
  {
    var t' := Apply(t, Create(auth, d));
    var rows := InitialScopes(auth, d);
    AppendKeeps(t.scopes, rows);
    assert rows[1] in t'.scopes && GrantsTo(rows[1], other, d);
    forall s | s in t'.scopes && GrantsTo(s, other, d)
      ensures s.permission == Read
    {
      assert s in rows;
    }
    EffectivePermissionIs(t', other, d, Read);
  }

  /** Only somebody with WRITE deletes a document; nothing else ever changes its row. */
  lemma OnlyWritersDelete(t: Tables, a: Action, d: DocId)
    requires d in t.docs
    ensures d in Apply(t, a).docs
    ensures Apply(t, a).docs[d] ==
      if a.Delete? && a.d == d && Require(t, a.auth, d, Write).Ok? then t.docs[d].(deleted := true) else t.docs[d]
  {
  }

  /** A deleted document stays out of reach of everybody, whatever is requested later. */
  lemma {:induction false} DeletedForGood(t: Tables, run: seq<Action>, d: DocId, auth: Auth, required: Permission)
    requires d in t.docs && t.docs[d].deleted
    ensures var t' := Exec(t, run);
      && d in t'.docs && t'.docs[d].deleted
      && Require(t', auth, d, required) == Err(DocumentNotFound)
      && !Listed(t', auth, d) && !InSearch(t', auth, d)
  {
    if run != [] {
      DeletedForGood(t, run[..|run| - 1], d, auth, required);
      OnlyWritersDelete(Exec(t, run[..|run| - 1]), run[|run| - 1], d);
    }
    hide Apply;
    RequireIff(Exec(t, run), auth, d, required);
  }

  /** A document of another tenant is not found, neither listed nor searchable. */
  lemma OtherTenantsSeeNothing(t: Tables, auth: Auth, d: DocId)
    requires d in t.docs && t.docs[d].tenantId != auth.tenantId
    ensures Require(t, auth, d, Read) == Err(DocumentNotFound) && !Listed(t, auth, d) && !InSearch(t, auth, d)
  {
  }

  /** One request leaves a document of another tenant, and everybody's permission on it, as they are. */
  lemma ForeignRequest(t: Tables, a: Action, d: DocId)
    requires d in t.docs && t.docs[d].tenantId != a.auth.tenantId
    ensures d in Apply(t, a).docs && Apply(t, a).docs[d] == t.docs[d]
    ensures forall auth :: EffectivePermission(Apply(t, a), auth, d) == EffectivePermission(t, auth, d)
  {
    forall auth
      ensures EffectivePermission(Apply(t, a), auth, d) == EffectivePermission(t, auth, d)
    {
      if a.Create? {
        if a.d !in t.docs {
          var s := InitialScopes(a.auth, a.d);
          GrantedOfMore(t.scopes, s[0], auth, d);
          GrantedOfMore(t.scopes + [s[0]], s[1], auth, d);
          assert t.scopes + s == t.scopes + [s[0]] + [s[1]];
        }
      } else if (a.Grant? || a.Revoke?) && a.d != d {
        OthersKeepPermission(t, a, auth, d);
      }
    }
  }

  /** However many requests other tenants make, a tenant's document and its permissions stay as they are. */
  lemma {:induction false} TenantsAreIsolated(t: Tables, run: seq<Action>, d: DocId)
    requires d in t.docs
    requires forall i | 0 <= i < |run| :: run[i].auth.tenantId != t.docs[d].tenantId
    ensures d in Exec(t, run).docs && Exec(t, run).docs[d] == t.docs[d]
    ensures forall auth :: EffectivePermission(Exec(t, run), auth, d) == EffectivePermission(t, auth, d)
  {
    hide Apply;
    if run != [] {
      var pre := run[..|run| - 1];
      TenantsAreIsolated(t, pre, d);
      ForeignRequest(Exec(t, pre), run[|run| - 1], d);
    }
  }

  /** Whoever changes the scopes of an existing document held ADMIN on it in the same tenant. */
  lemma OnlyAdminsChangeScopes(t: Tables, a: Action, s: Scope)
    requires (s in t.scopes) != (s in Apply(t, a).scopes)
    requires s.doc in t.docs
    ensures a.Grant? || a.Revoke?
    ensures IsActive(t, a.auth, a.d) && EffectivePermission(t, a.auth, a.d) == Some(Admin)
    ensures s.HasKey(a.d, a.ptype, a.pid)
  {
    match a
    case Create(auth, d) =>
      if d !in t.docs {
        AppendKeeps(t.scopes, InitialScopes(auth, d));
      }
    case Delete(_, _) =>
    case Grant(_, d, ptype, pid, p) =>
      RelevelRows(t.scopes, d, ptype, pid, p);
    case Revoke(_, d, ptype, pid) =>
      WithoutRows(t.scopes, d, ptype, pid);
  }

  lemma {:induction false} GrantedOfRelevel(rows: seq<Scope>, d: DocId, ptype: PrincipalType, pid: string, p: Permission, auth: Auth, e: DocId)
    requires d != e || !KeyConcerns(ptype, pid, auth)
    ensures Granted(Relevel(rows, d, ptype, pid, p), auth, e) == Granted(rows, auth, e)
  {
    if rows != [] {
      GrantedOfRelevel(rows[1..], d, ptype, pid, p, auth, e);
      var r := Relevel(rows, d, ptype, pid, p);
      assert r[1..] == Relevel(rows[1..], d, ptype, pid, p);
    }
  }

  lemma {:induction false} GrantedOfMore(rows: seq<Scope>, s: Scope, auth: Auth, e: DocId)
    requires s.doc != e || !Concerns(s, auth)
    ensures Granted(rows + [s], auth, e) == Granted(rows, auth, e)
  {
    if rows == [] {
      assert rows + [s] == [s];
    } else {
      GrantedOfMore(rows[1..], s, auth, e);
      assert (rows + [s])[1..] == rows[1..] + [s];
    }
  }

  lemma {:induction false} GrantedOfWithout(rows: seq<Scope>, d: DocId, ptype: PrincipalType, pid: string, auth: Auth, e: DocId)
    requires d != e || !KeyConcerns(ptype, pid, auth)
    ensures Granted(Without(rows, d, ptype, pid), auth, e) == Granted(rows, auth, e)
  {
    if rows != [] {
      GrantedOfWithout(rows[1..], d, ptype, pid, auth, e);
      var rest := Without(rows[1..], d, ptype, pid);
      if rows[0].HasKey(d, ptype, pid) {
        assert Without(rows, d, ptype, pid) == rest;
      } else {
        assert ([rows[0]] + rest)[1..] == rest;
      }
    }
  }

  /** A grant or revoke changes nothing for a requester whom its key does not name, or on another document. */
  lemma OthersKeepPermission(t: Tables, a: Action, auth: Auth, e: DocId)
    requires (a.Grant? || a.Revoke?) && e in t.docs
    requires a.d != e || !KeyConcerns(a.ptype, a.pid, auth)
    ensures e in Apply(t, a).docs && EffectivePermission(Apply(t, a), auth, e) == EffectivePermission(t, auth, e)
  {
    match a
    case Grant(_, d, ptype, pid, p) =>
      GrantedOfRelevel(t.scopes, d, ptype, pid, p, auth, e);
      if Check(t, a).Ok? {
        GrantedOfMore(t.scopes, Scope(d, t.docs[d].tenantId, ptype, pid, p), auth, e);
      }
    case Revoke(_, d, ptype, pid) =>
      GrantedOfWithout(t.scopes, d, ptype, pid, auth, e);
  }

  /** A grant whose key is the principal's decimal text gives it at least the granted level. */
  lemma PrincipalCovered(t: Tables, a: Action, user: Auth)
    requires Inv(t) && a.Grant? && Check(t, a).Ok?
    requires user.tenantId == a.auth.tenantId && KeyConcerns(a.ptype, a.pid, user)
    ensures var p := EffectivePermission(Apply(t, a), user, a.d); p.Some? && p.value.Satisfies(a.permission)
  {
    var t' := Apply(t, a);
    if t'.docs[a.d].owner != Print(user.userId) {
      var s: Scope;
      if HasScope(t.scopes, a.d, a.ptype, a.pid) {
        RelevelRows(t.scopes, a.d, a.ptype, a.pid, a.permission);
        var i :| 0 <= i < |t.scopes| && t.scopes[i].HasKey(a.d, a.ptype, a.pid);
        assert t.scopes[i] in t.scopes;
        s := t'.scopes[i];
      } else {
        s := t'.scopes[|t.scopes|];
      }
      assert s in t'.scopes && s.doc == a.d && s.permission == a.permission;
      assert Concerns(s, user);
      HighestCovers(t'.scopes, user, a.d, s);
    }
  }

  /** The principal an accepted grant names: the number its text parses to. */
  predicate Names(ptype: PrincipalType, pid: string, auth: Auth) {
    ParseLong(pid) == Some(if ptype.User? then auth.userId else auth.tenantId)
  }

  predicate May(t: Tables, auth: Auth, d: DocId, p: Permission)
    requires d in t.docs
  {
    var granted := EffectivePermission(t, auth, d);
    granted.Some? && granted.value.Satisfies(p)
  }

  /**
    An accepted grant gives the principal it names the granted level exactly when its text is
    that principal's plain decimal number, unless the principal had the level anyway. Texts such
    as "07" or "+7" are accepted and stored as they are, and no check ever matches them.
   */
  lemma GrantTakesEffect(t: Tables, a: Action, user: Auth)
    requires Inv(t) && a.Grant? && Check(t, a).Ok?
    requires user.tenantId == a.auth.tenantId && Names(a.ptype, a.pid, user)
    ensures a.d in t.docs && a.d in Apply(t, a).docs
    ensures May(Apply(t, a), user, a.d, a.permission) <==>
      KeyConcerns(a.ptype, a.pid, user) || May(t, user, a.d, a.permission)
  {
    if KeyConcerns(a.ptype, a.pid, user) {
      PrincipalCovered(t, a, user);
    } else {
      OthersKeepPermission(t, a, user, a.d);
    }
  }

  const MEMBERS: map<int, int> := map[1 := 10, 7 := 10]

  /** The tables after user 1 of tenant 10 created document 0. */
  function Created(): Tables {
    Tables(MEMBERS, map[0 := Document(10, Print(1), false)], InitialScopes(Auth(1, 10), 0))
  }

  lemma CreatedByRun()
    ensures Exec(Empty(MEMBERS), [Create(Auth(1, 10), 0)]) == Created() && Inv(Created())
  {
    var t0, c := Empty(MEMBERS), Create(Auth(1, 10), 0);
    InvInEveryState(MEMBERS, [c]);
    assert [c][..0] == [] && Exec(t0, []) == t0;
    assert Exec(t0, [c]) == Apply(t0, c);
  }

  lemma TenantOnly()
    ensures EffectivePermission(Created(), Auth(7, 10), 0) == Some(Read)
  {
    var rows := InitialScopes(Auth(1, 10), 0);
    assert Print(1) == "1" && Print(7) == "7";
    var rest := [Scope(0, 10, Tenant, Print(10), Read)];
    assert rows[1..] == rest && rest[1..] == [];
    hide Print;
    assert Granted(rest, Auth(7, 10), 0) == [Read] + Granted([], Auth(7, 10), 0) == [Read];
    assert Granted(rows, Auth(7, 10), 0) == [] + Granted(rest, Auth(7, 10), 0);
    assert Highest([Read]) == Some(Read) by {
      assert [Read][1..] == [];
    }
  }

  /** User 1 creates a document and grants WRITE to "07": accepted, but user 7 still only reads. */
  lemma PaddedGrantIsLost()
    ensures var t := Exec(Empty(MEMBERS), [Create(Auth(1, 10), 0)]);
      var g := Grant(Auth(1, 10), 0, User, "07", Write);
      && Inv(t) && Check(t, g).Ok? && Names(User, "07", Auth(7, 10))
      && 0 in Apply(t, g).docs && !May(Apply(t, g), Auth(7, 10), 0, Write)
  {
    CreatedByRun();
    TenantOnly();
    PaddedSeven();
    assert Print(7) == "7";
    hide Exec, InitialScopes, Print, ParseLong, Granted, Highest, Inv, EffectivePermission;
    OwnerIsAdmin();
    var g := Grant(Auth(1, 10), 0, User, "07", Write);
    assert !KeyConcerns(User, "07", Auth(7, 10));
    GrantTakesEffect(Created(), g, Auth(7, 10));
  }

  lemma OwnerIsAdmin()
    ensures EffectivePermission(Created(), Auth(1, 10), 0) == Some(Admin)
  {
  }

  lemma PaddedSeven()
    ensures ParseLong("07") == Some(7)
  {
    assert "07"[..1] == "0";
    assert ParseDigits("0") == Some(0);
  }

  lemma {:induction false} HighestCovers(rows: seq<Scope>, auth: Auth, d: DocId, s: Scope)
    requires s in rows && s.doc == d && Concerns(s, auth)
    ensures var p := Highest(Granted(rows, auth, d)); p.Some? && p.value.Level() >= s.permission.Level()
  {
    if s != rows[0] {
      HighestCovers(rows[1..], auth, d, s);
      if rows[0].doc == d && Concerns(rows[0], auth) {
        assert Granted(rows, auth, d)[1..] == Granted(rows[1..], auth, d);
      } else {
        assert Granted(rows, auth, d) == Granted(rows[1..], auth, d);
      }
    }
  }

  /** Granting a new principal and revoking it again restores every row. */
  lemma RevokeUndoesGrant(t: Tables, g: Action, admin: Auth)
    requires Inv(t) && g.Grant? && Check(t, g).Ok?
    requires !HasScope(t.scopes, g.d, g.ptype, g.pid)
    requires Check(Apply(t, g), Revoke(admin, g.d, g.ptype, g.pid)).Ok?
    ensures Apply(Apply(t, g), Revoke(admin, g.d, g.ptype, g.pid)) == t
  {
    WithoutFresh(t.scopes, Scope(g.d, t.docs[g.d].tenantId, g.ptype, g.pid, g.permission));
  }

  lemma {:induction false} WithoutFresh(rows: seq<Scope>, s: Scope)
    requires !HasScope(rows, s.doc, s.ptype, s.pid)
    ensures Without(rows + [s], s.doc, s.ptype, s.pid) == rows
  {
    if rows == [] {
      assert rows + [s] == [s];
    } else {
      assert (rows + [s])[1..] == rows[1..] + [s];
      forall r | r in rows[1..]
        ensures !r.HasKey(s.doc, s.ptype, s.pid)
      {
        assert r in rows;
      }
      WithoutFresh(rows[1..], s);
      assert rows[0] in rows;
    }
  }
}
