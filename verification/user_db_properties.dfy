/** What the user gateway promises across calls. */
module UserDBProperties {
  import opened Wrappers
  import opened UserEntity
  import opened UserDB

  /** After a successful create, the row under the new id is exactly the created user. */
  lemma CreateStoresUnderId(s: Store, u: User, fault: bool)
    requires Create(s, u, fault).Success?
    ensures Stored(Create(s, u, fault).value, u.id)
    ensures var s' := Create(s, u, fault).value;
      forall k :: 0 <= k < |s'| && s'[k].id == u.id ==> s'[k] == u
  {
    var s' := Create(s, u, fault).value;
    assert s'[|s|].id == u.id;
  }

  /**
   * After a successful create, looking the e-mail up succeeds with that
   * e-mail; when no stored user had it, the lookup returns the new user.
   */
  lemma CreateThenFindByEmail(s: Store, u: User, fault: bool)
    requires Create(s, u, fault).Success?
    ensures var found := FindByEmail(Create(s, u, fault).value, u.email);
      found.Success? && found.value.email == u.email
    ensures !HasEmail(s, u.email) ==> FindByEmail(Create(s, u, fault).value, u.email) == Success(u)
  {
    var s' := Create(s, u, fault).value;
    assert s'[|s|].email == u.email;
    if !HasEmail(s, u.email) {
      var found := FindByEmail(s', u.email).value;
      var k :| 0 <= k < |s'| && s'[k] == found;
    }
  }

  /**
   * The lookup is the matching user with the smallest key, whatever the row
   * order: any matching user whose key precedes every other match is it.
   */
  lemma FindByEmailIsLeastKey(s: Store, email: string, v: User)
    requires v in s && v.email == email
    requires forall u :: u in s && u.email == email && u != v ==> KeyBefore(v.id, u.id)
    ensures FindByEmail(s, email) == Success(v)
  {
    var k :| 0 <= k < |s| && s[k] == v;
    assert HasEmail(s, email);
  }
}
