/**
 * The user entity. Its constructor hashes the password with bcrypt and
 * assigns a random UUID; both are outside the model, so the hashing outcome
 * and the identifier are inputs. The constructor performs no field
 * validation: hashing is its only failure.
 */
module UserEntity {
  import opened Wrappers
  import opened EntityId

  /** A registered user; `password` holds the bcrypt hash, never the raw password. */
  datatype User = User(id: string, name: string, email: string, password: string)

  /** What bcrypt's `GenerateFromPassword` produced for the raw password. */
  datatype HashOutcome = Hashed(hash: string) | HashFailed(message: string)

  /** `NewUser(name, email, password)`: the only failure is the hashing error, passed on unchanged. */
  function NewUser(name: string, email: string, password: string, id: FreshId, hashing: HashOutcome)
    : (r: Result<User, string>)
    ensures r.Success? <==> hashing.Hashed?
    ensures r.Failure? ==> r.error == hashing.message
    ensures r.Success? ==>
      && r.value.id == id && r.value.id != ""
      && r.value.name == name && r.value.email == email
      && r.value.password == hashing.hash
  {
    match hashing
    case HashFailed(message) => Failure(message)
    case Hashed(hash) => Success(User(id, name, email, hash))
  }
}
