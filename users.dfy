/** The user entity, its transfer objects and UserMapper
    (src/main/java/ru/practicum/shareit/user/model/mapper/UserMapper.java). */
module Users {
  import opened Outcomes
  import opened Text

  /** A stored user; id 0 stands for "not yet assigned". */
  datatype User = User(id: int, name: string, email: string)

  datatype UserDto = UserDto(id: int, name: string, email: string)

  /** A creation request; the name and email are validated as non-blank
      before the service sees them. */
  datatype UserCreateDto = UserCreateDto(name: string, email: string)

  /** A partial update: a null field is None. */
  datatype UserUpdateDto = UserUpdateDto(name: Option<string>, email: Option<string>)

  /** The update provides a name: present and not blank. */
  predicate HasName(d: UserUpdateDto) {
    d.name.Some? && !IsBlank(d.name.value)
  }

  /** The update provides an email: present and not blank. */
  predicate HasEmail(d: UserUpdateDto) {
    d.email.Some? && !IsBlank(d.email.value)
  }

  /** UserMapper.mapToUserDto. */
  function MapToUserDto(u: User): (d: UserDto)
    ensures d.id == u.id && d.name == u.name && d.email == u.email
  {
    UserDto(u.id, u.name, u.email)
  }

  /** UserMapper.mapToUser(UserDto). */
  function MapToUser(d: UserDto): (u: User)
    ensures MapToUserDto(u) == d
  {
    User(d.id, d.name, d.email)
  }

  /** UserMapper.mapToUser(UserCreateDto): the id is left at 0. */
  function MapToNewUser(c: UserCreateDto): (u: User)
    ensures u.id == 0 && u.name == c.name && u.email == c.email
  {
    User(0, c.name, c.email)
  }

  /** UserMapper.updateUserFields: the email, then the name, each only when
      the update provides it. */
  function UpdateUserFields(u: User, d: UserUpdateDto): (r: User)
    ensures r.id == u.id
  {
    var withEmail := if HasEmail(d) then u.(email := d.email.value) else u;
    if HasName(d) then withEmail.(name := d.name.value) else withEmail
  }

  /** Mapping a user to its view and back gives the same user. */
  lemma UserDtoRoundTrip(u: User)
    ensures MapToUser(MapToUserDto(u)) == u
  {
  }

  /** A field changes only when the update provides it, and then it takes the
      provided value; the id never changes. */
  lemma UpdateUserFieldsChangesOnlyProvided(u: User, d: UserUpdateDto)
    ensures UpdateUserFields(u, d).id == u.id
    ensures HasName(d) ==> UpdateUserFields(u, d).name == d.name.value
    ensures !HasName(d) ==> UpdateUserFields(u, d).name == u.name
    ensures HasEmail(d) ==> UpdateUserFields(u, d).email == d.email.value
    ensures !HasEmail(d) ==> UpdateUserFields(u, d).email == u.email
  {
  }

  /** Null or blank fields leave the user as it was. */
  lemma UpdateUserFieldsIgnoresBlank(u: User, name: Option<string>, email: Option<string>)
    requires name.None? || IsBlank(name.value)
    requires email.None? || IsBlank(email.value)
    ensures UpdateUserFields(u, UserUpdateDto(name, email)) == u
  {
  }

  /** Applying the same update twice changes nothing more. */
  lemma UpdateUserFieldsIdempotent(u: User, d: UserUpdateDto)
    ensures UpdateUserFields(UpdateUserFields(u, d), d) == UpdateUserFields(u, d)
  {
  }
}
