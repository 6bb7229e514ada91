/**
 * The user gateway over an abstract `users` table: rows in insertion order,
 * `id` the primary key. E-mail addresses are not constrained to be unique;
 * `FindByEmail` uses `First`, which returns the matching row with the
 * smallest primary key.
 */
module UserDB {
  import opened Wrappers
  import opened Database
  import opened UserEntity

  /** The `users` table, rows in insertion order. */
  type Store = seq<User>

  /*
   * `UniqueIds` and `Stored` mirror the predicates of the same name in
   * `ProductDB`: the two tables are separate, each with its own `id` key.
   */

  /** The primary-key constraint: no two rows share an id. */
  predicate UniqueIds(s: Store) {
    forall i, j :: 0 <= i < j < |s| ==> s[i].id != s[j].id
  }

  predicate Stored(s: Store, id: string) {
    exists i :: 0 <= i < |s| && s[i].id == id
  }

  predicate HasEmail(s: Store, email: string) {
    exists i :: 0 <= i < |s| && s[i].email == email
  }

  /** Byte-wise order of keys: `a` sorts strictly before `b`. */
  predicate KeyBefore(a: string, b: string) {
    if a == [] then b != []
    else if b == [] then false
    else if a[0] != b[0] then a[0] < b[0]
    else KeyBefore(a[1..], b[1..])
  }

  lemma {:induction false} KeyBeforeIrreflexive(a: string)
    ensures !KeyBefore(a, a)
  {
    if a != [] {
      KeyBeforeIrreflexive(a[1..]);
    }
  }

  lemma {:induction false} KeyBeforeTransitive(a: string, b: string, c: string)
    requires KeyBefore(a, b) && KeyBefore(b, c)
    ensures KeyBefore(a, c)
  {
    if a != [] && b != [] && c != [] && a[0] == b[0] && b[0] == c[0] {
      KeyBeforeTransitive(a[1..], b[1..], c[1..]);
    }
  }

  /** `Create`: an INSERT of one row. */
  function Create(s: Store, u: User, fault: bool): (r: Result<Store, DbError>)
    ensures fault ==> r == Failure(BackendFailure)
    ensures !fault && Stored(s, u.id) ==> r == Failure(DuplicateKey)
    ensures r.Success? <==> !fault && !Stored(s, u.id)
    ensures r.Success? ==> |r.value| == |s| + 1 && r.value[..|s|] == s && r.value[|s|] == u
    ensures r.Success? && UniqueIds(s) ==> UniqueIds(r.value)
  {
    if fault then Failure(BackendFailure)
    else if exists i :: 0 <= i < |s| && s[i].id == u.id then Failure(DuplicateKey)
    else Success(s + [u])
  }

  /** `FindByEmail`: `First` with `email = ?`, i.e. the matching row with the smallest key. */
  function FindByEmail(s: Store, email: string): (r: Result<User, DbError>)
    ensures r.Success? <==> HasEmail(s, email)
    ensures r.Failure? ==> r.error == RecordNotFound
    ensures r.Success? ==> r.value.email == email && r.value in s
    ensures r.Success? ==> forall u :: u in s && u.email == email ==> !KeyBefore(u.id, r.value.id)
  {
    if s == [] then Failure(RecordNotFound)
    else
      var rest := FindByEmail(s[1..], email);
      assert forall u :: u in s ==> u == s[0] || u in s[1..];
      assert HasEmail(s[1..], email) ==> HasEmail(s, email) by {
        if HasEmail(s[1..], email) {
          var k :| 0 <= k < |s[1..]| && s[1..][k].email == email;
          assert s[k + 1].email == email;
        }
      }
      assert HasEmail(s, email) && s[0].email != email ==> HasEmail(s[1..], email) by {
        if HasEmail(s, email) && s[0].email != email {
          var k :| 0 <= k < |s| && s[k].email == email;
          assert s[1..][k - 1].email == email;
        }
      }
      if s[0].email != email then rest
      else
        match rest
        case Failure(_) =>
          KeyBeforeIrreflexive(s[0].id);
          Success(s[0])
        case Success(found) =>
          if KeyBefore(s[0].id, found.id) then
            KeyBeforeIrreflexive(s[0].id);
            assert forall u :: u in s[1..] && u.email == email ==> !KeyBefore(u.id, s[0].id) by {
              forall u | u in s[1..] && u.email == email
                ensures !KeyBefore(u.id, s[0].id)
              {
                if KeyBefore(u.id, s[0].id) {
                  KeyBeforeTransitive(u.id, s[0].id, found.id);
                }
              }
            }
            Success(s[0])
          else
            rest
  }
}
