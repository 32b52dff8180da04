/**
 * The users service: a conflict-checked `create` that lower-cases the email
 * and applies the defaults, and pass-through lookups and hash updates.
 */
module Users {
  import opened Base
  import opened Crypto
  import opened Store
  import opened UserRepo

  /** The row `create` inserts when the email is free. */
  function NewUserRow(email: string, passwordHash: Digest, role: Role, isActive: Option<bool>,
                      id: string, now: int): UserRow {
    InsertedRow(NewUser(ToLower(email), passwordHash, role, isActive.GetOr(true), None), id, now)
  }

  class UsersService {
    const repository: UserRepositoryPrisma

    constructor (repository: UserRepositoryPrisma)
      ensures this.repository == repository
    {
      this.repository := repository;
    }

    function FindByEmail(email: string): (r: Option<UserModel>)
      reads repository.db
      ensures r == repository.FindByEmail(email)
    {
      repository.FindByEmail(email)
    }

    function FindById(id: string): (r: Option<UserModel>)
      reads repository.db
      ensures r == repository.FindById(id)
    {
      repository.FindById(id)
    }

    /**
     * `create`: Conflict when a user already has the (lower-cased) email,
     * with the store unchanged; otherwise inserts the lower-cased email,
     * `isActive` defaulting to true and no refresh hash.
     */
    method Create(email: string, passwordHash: Digest, role: Role, isActive: Option<bool>,
                  freshId: string, now: int) returns (r: Result<UserModel>)
      requires FreshId(repository.db.Snapshot(), freshId)
      modifies repository.db`users
      ensures LookupByEmail(old(repository.db.Snapshot()), email).Some? ==>
        && r == Failure(Conflict("User with email " + email + " already exists"))
        && repository.db.users == old(repository.db.users)
      ensures LookupByEmail(old(repository.db.Snapshot()), email).None? ==>
        && r == Success(ToModel(NewUserRow(email, passwordHash, role, isActive, freshId, now), None, None))
        && repository.db.users == old(repository.db.users) + [NewUserRow(email, passwordHash, role, isActive, freshId, now)]
    {
      var existing := repository.FindByEmail(email);
      if existing.Some? {
        return Failure(Conflict("User with email " + email + " already exists"));
      }
      r := repository.Create(NewUser(ToLower(email), passwordHash, role, isActive.GetOr(true), None), freshId, now);
    }

    method UpdateRefreshTokenHash(userId: string, hash: Option<Digest>) returns (r: Result<()>)
      modifies repository.db`users
      ensures r == if HasUser(old(repository.db.users), userId) then Success(()) else Failure(RecordNotFound)
      ensures repository.db.users ==
        if r.Success? then SetRefreshHash(old(repository.db.users), userId, hash) else old(repository.db.users)
    {
      r := repository.UpdateRefreshTokenHash(userId, hash);
    }
  }
}
