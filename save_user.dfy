/** Registering a user: email uniqueness ignoring case, then hash, build and save. */
module SaveUser {
  import opened Wrappers
  import opened Domain
  import Scan
  import UserRepository

  /** `shipping_address or ""`: an absent or empty address is stored as "". */
  function OrEmpty(address: Option<string>): string {
    if address.Some? && address.value != "" then address.value else ""
  }

  /**
   * What registering `cmd` yields against the store `users`: a duplicate email
   * (ignoring case) is refused, otherwise the new user is built with the
   * digest of the password and the fresh identifier `freshId`.
   */
  function CreateUserResult(users: seq<User>, cmd: CreateUserCommand, freshId: Uuid, hash: string -> string): (r: Result<User, Error>)
    ensures r.Failure? <==> exists j :: 0 <= j < |users| && SameIgnoringCase(users[j].email, cmd.email)
    ensures r.Failure? ==> r.error == EmailAlreadyExists(cmd.email)
    ensures r.Success? ==> r.value.id == freshId && r.value.email == cmd.email
    ensures r.Success? ==> r.value.firstName == cmd.firstName && r.value.lastName == cmd.lastName
    ensures r.Success? ==> r.value.hashedPassword == hash(cmd.password)
    ensures r.Success? ==> r.value.shippingAddress == match cmd.shippingAddress case None => "" case Some(a) => a
  {
    if Scan.FirstMatch(users, UserRepository.HasEmail(cmd.email)).Some? then
      Failure(EmailAlreadyExists(cmd.email))
    else
      Success(User(freshId, cmd.email, cmd.firstName, cmd.lastName, hash(cmd.password), OrEmpty(cmd.shippingAddress)))
  }

  class CreateUserUseCase {
    const userRepository: UserRepository.InMemoryUserRepository
    /** The one-way password digest (SHA-256 hex in the system). */
    const hash: string -> string

    constructor (userRepository: UserRepository.InMemoryUserRepository, hash: string -> string)
      ensures this.userRepository == userRepository && this.hash == hash
    {
      this.userRepository := userRepository;
      this.hash := hash;
    }

    /** Registers `cmd` under the fresh identifier `freshId`; the store grows only on success. */
    method Call(cmd: CreateUserCommand, freshId: Uuid) returns (r: Result<User, Error>)
      modifies userRepository
      ensures r == CreateUserResult(old(userRepository.users), cmd, freshId, hash)
      ensures userRepository.users == if r.Success? then old(userRepository.users) + [r.value] else old(userRepository.users)
    {
      var existing := userRepository.FindByEmail(cmd.email);
      if existing.Some? {
        return Failure(EmailAlreadyExists(cmd.email));
      }
      var hashedPassword := hash(cmd.password);
      var user := User(freshId, cmd.email, cmd.firstName, cmd.lastName, hashedPassword, OrEmpty(cmd.shippingAddress));
      var saved := userRepository.Save(user);
      return Success(saved);
    }
  }

  /** After a registration, an email that differs only in letter case is refused. */
  lemma DuplicateEmailIgnoresCase(users: seq<User>, cmd: CreateUserCommand, freshId: Uuid, hash: string -> string,
                                  cmd2: CreateUserCommand, freshId2: Uuid)
    requires CreateUserResult(users, cmd, freshId, hash).Success?
    requires SameIgnoringCase(cmd2.email, cmd.email)
    ensures CreateUserResult(users + [CreateUserResult(users, cmd, freshId, hash).value], cmd2, freshId2, hash)
         == Failure(EmailAlreadyExists(cmd2.email))
  {
    var u := CreateUserResult(users, cmd, freshId, hash).value;
    assert (users + [u])[|users|] == u;
  }

  /** Registering "a@b.com" and then "A@B.COM" fails on the second. */
  lemma UpperCaseEmailIsDuplicate(cmd: CreateUserCommand, cmd2: CreateUserCommand, id: Uuid, id2: Uuid, hash: string -> string)
    requires cmd.email == "a@b.com" && cmd2.email == "A@B.COM"
    ensures CreateUserResult([], cmd, id, hash).Success?
    ensures CreateUserResult([CreateUserResult([], cmd, id, hash).value], cmd2, id2, hash) == Failure(EmailAlreadyExists("A@B.COM"))
  {
  }
}
