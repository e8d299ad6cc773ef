/** `UserServiceImp`: the create and update guard chains over the user store.
    Both guard chains are pure functions of the stored users; the methods run
    them and then save. */
module UserService {
  import opened Shared
  import opened Text
  import opened Users
  import opened UserStore

  /** The guards of `createUser`, in order: email, then name, then the
      email already in use. */
  function CreateCheck(rows: map<int, UserDto>, dto: CreateUserDto): (e: Option<Error>)
    ensures e.None? <==> !NullOrBlank(dto.email) && !NullOrBlank(dto.name) && !EmailTaken(rows, dto.email.value)
    ensures NullOrBlank(dto.email) ==> e == Some(IllegalArgument("email required"))
    ensures !NullOrBlank(dto.email) && NullOrBlank(dto.name) ==> e == Some(IllegalArgument("name required"))
    ensures !NullOrBlank(dto.email) && !NullOrBlank(dto.name) && EmailTaken(rows, dto.email.value) ==>
              e == Some(Conflict("email already used"))
  {
    if NullOrBlank(dto.email) then Some(IllegalArgument("email required"))
    else if NullOrBlank(dto.name) then Some(IllegalArgument("name required"))
    else if EmailTaken(rows, dto.email.value) then Some(Conflict("email already used"))
    else None
  }

  /** The email clash `update` tests: as written, `existsByEmailAndId(email,
      id)`, the user itself already having exactly this email; as evidently
      intended, another user having it, ignoring case. */
  predicate EmailClash(v: Version, rows: map<int, UserDto>, email: string, id: int) {
    match v
    case AsWritten => EmailAndId(rows, email, id)
    case Corrected => EmailTakenByOther(rows, email, id)
  }

  /** The guards of `update`: the user must exist, and a non-null email must
      not clash. */
  function UpdateCheck(v: Version, rows: map<int, UserDto>, id: int, dto: UpdateUserDto): (e: Option<Error>)
    ensures id !in rows ==> e == Some(NotFound("user not found"))
    ensures e.None? <==> id in rows && !(dto.email.Some? && EmailClash(v, rows, dto.email.value, id))
    ensures e.Some? && id in rows ==> e == Some(Conflict("email already used"))
  {
    if id !in rows then Some(NotFound("user not found"))
    else if dto.email.Some? && EmailClash(v, rows, dto.email.value, id) then Some(Conflict("email already used"))
    else None
  }

  /** A user created past the guards keeps emails unique, provided its new id
      is free. */
  lemma CreateKeepsEmailsUnique(rows: map<int, UserDto>, dto: CreateUserDto, next: int)
    requires UniqueEmails(rows) && next !in rows && CreateCheck(rows, dto).None?
    ensures UniqueEmails(rows[next := UserDto(Some(next), dto.name, dto.email)])
  {
    var rows' := rows[next := UserDto(Some(next), dto.name, dto.email)];
    forall j, k | j in rows' && k in rows' && j != k && rows'[j].email.Some?
      ensures !SameEmail(rows'[k], rows'[j].email.value)
    {
      if j == next {
        assert !SameEmail(rows[k], dto.email.value);
      } else if k == next {
        assert !SameEmail(rows[j], dto.email.value);
      }
    }
  }

  /** An update past the corrected guard keeps emails unique. */
  lemma {:induction false} UpdateCorrectedKeepsEmailsUnique(rows: map<int, UserDto>, id: int, dto: UpdateUserDto)
    requires UniqueEmails(rows) && UpdateCheck(Corrected, rows, id, dto).None?
    ensures UniqueEmails(rows[id := Patched(rows[id], dto)])
  {
    var rows' := rows[id := Patched(rows[id], dto)];
    forall j, k | j in rows' && k in rows' && j != k && rows'[j].email.Some?
      ensures !SameEmail(rows'[k], rows'[j].email.value)
    {
      if j == id && !NullOrBlank(dto.email) {
        assert !SameEmail(rows[k], dto.email.value);
      } else if k == id && !NullOrBlank(dto.email) {
        assert !SameEmail(rows[j], dto.email.value);
      }
    }
  }

  /** As written, `update` lets user 1 take user 0's email, and refuses user 0
      the email it already has. */
  lemma UpdateAsWrittenAdmitsDuplicate()
    ensures var rows := map[0 := UserDto(Some(0), Some("Ann"), Some("ann@x")),
                            1 := UserDto(Some(1), Some("Bob"), Some("bob@x"))];
            var dto := UpdateUserDto(None, Some("ann@x"));
            UniqueEmails(rows)
            && UpdateCheck(AsWritten, rows, 1, dto).None?
            && !UniqueEmails(rows[1 := Patched(rows[1], dto)])
            && UpdateCheck(AsWritten, rows, 0, dto) == Some(Conflict("email already used"))
            && UpdateCheck(Corrected, rows, 1, dto) == Some(Conflict("email already used"))
            && UpdateCheck(Corrected, rows, 0, dto).None?
  {
    var rows := map[0 := UserDto(Some(0), Some("Ann"), Some("ann@x")),
                    1 := UserDto(Some(1), Some("Bob"), Some("bob@x"))];
    var dto := UpdateUserDto(None, Some("ann@x"));
    assert Lower("ann@x") != Lower("bob@x") by {
      assert Lower("ann@x")[0] == 'a' && Lower("bob@x")[0] == 'b';
    }
    assert SameEmail(rows[0], "ann@x");
    assert !Blank("ann@x") by {
      assert !IsWhitespace("ann@x"[0]);
    }
    var rows' := rows[1 := Patched(rows[1], dto)];
    assert rows'[1].email == Some("ann@x");
    assert SameEmail(rows'[0], "ann@x");
  }

  class Service {
    const users: Store

    /** The store is well formed, no two users share an email, and every
        id in use is below the counter, so a new user never overwrites one. */
    ghost predicate Valid()
      reads this, users, users.users.Values
    {
      users.Valid() && UniqueEmails(users.Rows()) && forall k :: k in users.users ==> k < users.counter
    }

    constructor (users: Store)
      requires users.Valid() && users.users == map[]
      ensures this.users == users && Valid()
    {
      this.users := users;
    }

    /** `createUser`: the guards, then one save of a new user. */
    method CreateUser(dto: CreateUserDto) returns (r: Result<UserDto>)
      requires Valid()
      modifies users
      ensures Valid()
      ensures CreateCheck(old(users.Rows()), dto).Some? ==>
                r == Err(CreateCheck(old(users.Rows()), dto).value)
                && users.users == old(users.users) && users.counter == old(users.counter)
      ensures CreateCheck(old(users.Rows()), dto).None? ==>
                var id := old(users.counter);
                r == Ok(UserDto(Some(id), dto.name, dto.email))
                && users.counter == id + 1
                && users.Rows() == old(users.Rows())[id := r.value]
    {
      if NullOrBlank(dto.email) {
        return Err(IllegalArgument("email required"));
      }
      if NullOrBlank(dto.name) {
        return Err(IllegalArgument("name required"));
      }
      var taken := users.ExistsByEmail(dto.email.value);
      if taken {
        return Err(Conflict("email already used"));
      }
      var u := FromCreate(dto);
      ghost var before := users.Rows();
      var saved := users.Save(u);
      r := Ok(ToDto(saved));
      CreateKeepsEmailsUnique(before, dto, saved.id.value);
    }

    /** `update`: the user must exist, the email must not be another user's,
        then the patch of a copy and one save of it. */
    method Update(id: int, dto: UpdateUserDto) returns (r: Result<UserDto>)
      requires Valid()
      modifies users
      ensures Valid()
      ensures UpdateCheck(Corrected, old(users.Rows()), id, dto).Some? ==>
                r == Err(UpdateCheck(Corrected, old(users.Rows()), id, dto).value)
                && users.users == old(users.users) && users.counter == old(users.counter)
      ensures UpdateCheck(Corrected, old(users.Rows()), id, dto).None? ==>
                r == Ok(Patched(old(users.Rows())[id], dto))
                && users.counter == old(users.counter)
                && users.Rows() == old(users.Rows())[id := r.value]
    {
      ghost var before := users.Rows();
      var found := users.FindById(id);
      if found.None? {
        return Err(NotFound("user not found"));
      }
      if dto.email.Some? {
        var clash := users.ExistsByEmailOrNot(dto.email.value, id);
        if clash {
          return Err(Conflict("email already used"));
        }
      }
      var user := found.value;
      Patch(dto, user);
      assert users.Rows() == before;
      assert ToDto(user) == Patched(before[id], dto) && user.id == Some(id);
      var saved := users.Save(user);
      r := Ok(ToDto(saved));
      UpdateCorrectedKeepsEmailsUnique(before, id, dto);
    }
  }
}
