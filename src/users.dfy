/** The user entity, its transfer objects and `UserMapper`. A `User` is an
    object: the repository hands out copies of it and `patch` changes it in
    place. */
module Users {
  import opened Shared
  import opened Text

  class User {
    var id: Option<int>
    var name: Option<string>
    var email: Option<string>

    /** `new User()`: every field null. */
    constructor ()
      ensures id.None? && name.None? && email.None?
    {
      id, name, email := None, None, None;
    }
  }

  /** `UserDto`. */
  datatype UserDto = UserDto(id: Option<int>, name: Option<string>, email: Option<string>)

  /** `CreateUserDto`. */
  datatype CreateUserDto = CreateUserDto(name: Option<string>, email: Option<string>)

  /** `UpdateUserDto`: a null or blank field means "leave unchanged". */
  datatype UpdateUserDto = UpdateUserDto(name: Option<string>, email: Option<string>)

  /** `toDto`: the user's fields as they stand. */
  function ToDto(u: User): UserDto
    reads u
  {
    UserDto(u.id, u.name, u.email)
  }

  /** `fromCreate`: a new user with the given name and email and no id. */
  method FromCreate(dto: CreateUserDto) returns (u: User)
    ensures fresh(u)
    ensures ToDto(u) == UserDto(None, dto.name, dto.email)
  {
    u := new User();
    u.name := dto.name;
    u.email := dto.email;
  }

  /** `toModel`: a new user whose `toDto` is `dto`; so `toModel(toDto(u))`
      has the fields of `u`. */
  method ToModel(dto: UserDto) returns (u: User)
    ensures fresh(u)
    ensures ToDto(u) == dto
  {
    u := new User();
    u.id := dto.id;
    u.name := dto.name;
    u.email := dto.email;
  }

  /** The fields `patch` leaves: a field of the update that is null or blank
      keeps the old value. */
  function Patched(d: UserDto, patch: UpdateUserDto): UserDto {
    UserDto(
      d.id,
      if NullOrBlank(patch.name) then d.name else patch.name,
      if NullOrBlank(patch.email) then d.email else patch.email)
  }

  /** `patch`: overwrites the target's name and email with the non-blank
      fields of the update. */
  method Patch(patch: UpdateUserDto, target: User)
    modifies target
    ensures ToDto(target) == Patched(old(ToDto(target)), patch)
  {
    if patch.name.Some? && !Blank(patch.name.value) {
      target.name := patch.name;
    }
    if patch.email.Some? && !Blank(patch.email.value) {
      target.email := patch.email;
    }
  }

  /** A field is overwritten exactly when the update carries text for it,
      and then with that text; the id never changes. */
  lemma PatchedFields(d: UserDto, patch: UpdateUserDto)
    ensures Patched(d, patch).id == d.id
    ensures Patched(d, patch).name == d.name || (!NullOrBlank(patch.name) && Patched(d, patch).name == patch.name)
    ensures Patched(d, patch).email == d.email || (!NullOrBlank(patch.email) && Patched(d, patch).email == patch.email)
    ensures !NullOrBlank(patch.name) ==> Patched(d, patch).name == patch.name
    ensures !NullOrBlank(patch.email) ==> Patched(d, patch).email == patch.email
  {
  }

  /** An update whose fields are all null or blank changes nothing. */
  lemma PatchNothing(d: UserDto, patch: UpdateUserDto)
    requires NullOrBlank(patch.name) && NullOrBlank(patch.email)
    ensures Patched(d, patch) == d
  {
  }

  /** Applying the same update twice is applying it once. */
  lemma PatchIdempotent(d: UserDto, patch: UpdateUserDto)
    ensures Patched(Patched(d, patch), patch) == Patched(d, patch)
  {
  }
}
