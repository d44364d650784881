/** The permission table as the service changes it: one row updated, appended or deleted. */
module PermissionService {
  import opened Wrappers
  import Decimal
  import opened DocumentAccess

  class Service {
    var users: map<int, int>
    var docs: map<DocId, Document>
    var scopes: seq<Scope>

    ghost function Rows(): Tables
      reads this
    {
      Tables(users, docs, scopes)
    }

    constructor (users: map<int, int>)
      ensures Rows() == Empty(users)
    {
      this.users, docs, scopes := users, map[], [];
    }

    /** findByDocumentIdAndPrincipalTypeAndPrincipalId, as a row position. */
    method FindScope(d: DocId, ptype: PrincipalType, pid: string) returns (r: Option<nat>)
      ensures r.None? <==> !HasScope(scopes, d, ptype, pid)
      ensures r.Some? ==> r.value < |scopes| && scopes[r.value].HasKey(d, ptype, pid)
    {
      for i := 0 to |scopes|
        invariant forall k | 0 <= k < i :: !scopes[k].HasKey(d, ptype, pid)
      {
        if scopes[i].HasKey(d, ptype, pid) {
          return Some(i);
        }
      }
      r := None;
    }

    method CreateDocument(auth: Auth, d: DocId)
      requires d !in docs
      modifies this
      ensures Rows() == Apply(old(Rows()), Create(auth, d))
    {
      docs := docs[d := Document(auth.tenantId, Decimal.Print(auth.userId), false)];
      scopes := scopes + InitialScopes(auth, d);
    }

    method GrantPermission(auth: Auth, d: DocId, ptype: PrincipalType, pid: string, permission: Permission)
      returns (r: Result<(), Error>)
      requires Inv(Rows())
      modifies this
      ensures Rows() == Apply(old(Rows()), Grant(auth, d, ptype, pid, permission))
      ensures r == Check(old(Rows()), Grant(auth, d, ptype, pid, permission))
      ensures Inv(Rows())
    {
      ghost var a := Grant(auth, d, ptype, pid, permission);
      GrantKeepsInv(Rows(), a);
      var document := Require(Tables(users, docs, scopes), auth, d, Admin);
      if document.Err? {
        return Err(document.error);
      }
      if !ValidPrincipal(Tables(users, docs, scopes), auth, ptype, pid) {
        return Err(PrincipalNotFound);
      }
      var existing := FindScope(d, ptype, pid);
      if existing.Some? {
        UpdateInPlace(scopes, existing.value, permission);
        scopes := scopes[existing.value := scopes[existing.value].(permission := permission)];
      } else {
        scopes := scopes + [Scope(d, docs[d].tenantId, ptype, pid, permission)];
      }
      r := Ok(());
    }

    method RevokePermission(auth: Auth, d: DocId, ptype: PrincipalType, pid: string) returns (r: Result<(), Error>)
      requires Inv(Rows())
      modifies this
      ensures Rows() == Apply(old(Rows()), Revoke(auth, d, ptype, pid))
      ensures r == Check(old(Rows()), Revoke(auth, d, ptype, pid))
      ensures Inv(Rows())
    {
      hide Inv, EffectivePermission, Without;
      RevokeKeepsInv(Rows(), Revoke(auth, d, ptype, pid));
      KeysOf(Rows());
      var document := Require(Tables(users, docs, scopes), auth, d, Admin);
      if document.Err? {
        return Err(document.error);
      }
      if ptype.User? && pid == document.value.owner {
        return Err(OwnerPermissionNotRevocable);
      }
      var scope := FindScope(d, ptype, pid);
      if scope.None? {
        return Err(PermissionNotFound);
      }
      DeleteInPlace(scopes, scope.value);
      scopes := scopes[..scope.value] + scopes[scope.value + 1..];
      r := Ok(());
    }
  }

  lemma KeysOf(t: Tables)
    requires Inv(t)
    ensures KeysUnique(t.scopes)
  {
  }

  /** With unique keys, updating the one row is the whole UPDATE. */
  lemma {:induction false} UpdateInPlace(rows: seq<Scope>, i: nat, p: Permission)
    requires KeysUnique(rows) && i < |rows|
    ensures rows[i := rows[i].(permission := p)] == Relevel(rows, rows[i].doc, rows[i].ptype, rows[i].pid, p)
  {
    var s := rows[i];
    RelevelRows(rows, s.doc, s.ptype, s.pid, p);
    forall k | 0 <= k < |rows| && k != i
      ensures !rows[k].HasKey(s.doc, s.ptype, s.pid)
    {
      if k < i {
        assert !rows[i].HasKey(rows[k].doc, rows[k].ptype, rows[k].pid);
      }
    }
  }

  lemma {:induction false} WithoutAbsent(rows: seq<Scope>, d: DocId, ptype: PrincipalType, pid: string)
    requires forall i | 0 <= i < |rows| :: !rows[i].HasKey(d, ptype, pid)
    ensures Without(rows, d, ptype, pid) == rows
  {
    if rows != [] {
      WithoutAbsent(rows[1..], d, ptype, pid);
    }
  }

  /** With unique keys, dropping the one row is the whole DELETE. */
  lemma {:induction false} DeleteInPlace(rows: seq<Scope>, i: nat)
    requires KeysUnique(rows) && i < |rows|
    ensures rows[..i] + rows[i + 1..] == Without(rows, rows[i].doc, rows[i].ptype, rows[i].pid)
  {
    var s := rows[i];
    if i == 0 {
      WithoutAbsent(rows[1..], s.doc, s.ptype, s.pid);
    } else {
      assert KeysUnique(rows[1..]);
      DeleteInPlace(rows[1..], i - 1);
      assert !rows[0].HasKey(s.doc, s.ptype, s.pid);
      assert rows[..i] + rows[i + 1..] == [rows[0]] + (rows[1..][..i - 1] + rows[1..][i..]);
    }
  }
}
