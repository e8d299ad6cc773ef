/** `UserRepositoryImpl`: user objects held in a hash map keyed by id, with a
    counter that hands out ids 0, 1, 2, ... Readers get copies, so changing a
    user returned by `findById` or `findAll` leaves the stored one alone. */
module UserStore {
  import opened Shared
  import opened Text
  import opened MapSelect
  import opened Users

  /** Some user's email equals `email`, ignoring case: `existsByEmail`. */
  predicate EmailTaken(rows: map<int, UserDto>, email: string) {
    exists k :: k in rows && SameEmail(rows[k], email)
  }

  /** Some user other than `id` has `email`, ignoring case:
      `existsByEmailOrNot`. */
  predicate EmailTakenByOther(rows: map<int, UserDto>, email: string, id: int) {
    exists k :: k in rows && k != id && SameEmail(rows[k], email)
  }

  /** The derived query `existsByEmailAndId`: the user `id` has exactly this
      email. */
  predicate EmailAndId(rows: map<int, UserDto>, email: string, id: int) {
    id in rows && rows[id].email == Some(email)
  }

  predicate SameEmail(d: UserDto, email: string) {
    d.email.Some? && EqualsIgnoreCase(d.email.value, email)
  }

  /** No two users share an email, ignoring case. */
  predicate UniqueEmails(rows: map<int, UserDto>) {
    forall j, k :: j in rows && k in rows && j != k && rows[j].email.Some? ==> !SameEmail(rows[k], rows[j].email.value)
  }

  /** `copy`: a new user with the same id, name and email. */
  method Copy(s: User) returns (c: User)
    ensures fresh(c) && ToDto(c) == ToDto(s)
  {
    c := new User();
    c.id := s.id;
    c.name := s.name;
    c.email := s.email;
  }

  class Store {
    var users: map<int, User>
    var counter: nat

    /** Every user is stored under its own id and has an email (the column is
        declared not null, and `existsByEmail` dereferences it). */
    ghost predicate Valid()
      reads this, users.Values
    {
      forall k :: k in users ==> users[k].id == Some(k) && users[k].email.Some?
    }

    /** The stored users as values. */
    function Rows(): (rows: map<int, UserDto>)
      reads this, users.Values
      ensures rows.Keys == users.Keys
    {
      map k | k in users :: ToDto(users[k])
    }

    constructor ()
      ensures Valid() && users == map[] && counter == 0
    {
      users := map[];
      counter := 0;
    }

    /** `save`: a user without an id takes the next counter value; the user
        object itself is stored under its id. */
    method Save(user: User) returns (saved: User)
      requires Valid() && user.email.Some?
      modifies this, user
      ensures Valid()
      ensures saved == user && user.name == old(user.name) && user.email == old(user.email)
      ensures old(user.id).Some? ==> user.id == old(user.id) && counter == old(counter)
      ensures old(user.id).None? ==> user.id == Some(old(counter)) && counter == old(counter) + 1
      ensures users == old(users)[user.id.value := user]
      ensures Rows() == old(Rows())[user.id.value := ToDto(user)]
    {
      ghost var before := Rows();
      if user.id.None? {
        user.id := Some(counter);
        counter := counter + 1;
      }
      var id := user.id.value;
      forall k | k in old(users) && k != id ensures old(users)[k] != user {
      }
      users := users[id := user];
      saved := user;
      forall k | k in users ensures Rows()[k] == before[id := ToDto(user)][k] {
        if k != id {
          assert users[k] == old(users)[k] != user;
        }
      }
    }

    /** `findById`: a copy of the stored user, or empty. */
    method FindById(id: int) returns (r: Option<User>)
      requires Valid()
      ensures r.Some? <==> id in users
      ensures r.Some? ==> fresh(r.value) && ToDto(r.value) == Rows()[id]
    {
      if id in users {
        var c := Copy(users[id]);
        r := Some(c);
      } else {
        r := None;
      }
    }

    /** `findAll`: a copy of every stored user. */
    method FindAll() returns (r: seq<User>)
      requires Valid()
      ensures |r| == |users.Keys|
      ensures forall i :: 0 <= i < |r| ==>
                fresh(r[i]) && r[i].id.Some? && r[i].id.value in users && ToDto(r[i]) == Rows()[r[i].id.value]
      ensures forall k :: k in users ==> exists i :: 0 <= i < |r| && r[i].id == Some(k)
    {
      r := [];
      var rest := users;
      while rest.Keys != {}
        invariant rest.Keys <= users.Keys
        invariant forall k :: k in rest ==> rest[k] == users[k]
        invariant |r| + |rest.Keys| == |users.Keys|
        invariant forall i :: 0 <= i < |r| ==>
                    fresh(r[i]) && r[i].id.Some? && r[i].id.value in users && r[i].id.value !in rest
                    && ToDto(r[i]) == ToDto(users[r[i].id.value])
        invariant forall k :: k in users && k !in rest ==> exists i :: 0 <= i < |r| && r[i].id == Some(k)
        decreases |rest.Keys|
      {
        NonEmpty(rest.Keys);
        var k :| k in rest.Keys;
        var c := Copy(rest[k]);
        ghost var prev := r;
        r := r + [c];
        rest := rest - {k};
        assert r[|r| - 1].id == Some(k);
        forall j | j in users && j !in rest ensures exists i :: 0 <= i < |r| && r[i].id == Some(j) {
          if j != k {
            var i :| 0 <= i < |prev| && prev[i].id == Some(j);
            assert r[i] == prev[i];
          }
        }
      }
    }

    /** `deleteById`: removes that id and nothing else. */
    method DeleteById(id: int)
      requires Valid()
      modifies this
      ensures Valid()
      ensures users == old(users) - {id} && counter == old(counter)
      ensures Rows() == old(Rows()) - {id}
    {
      users := users - {id};
    }

    /** `existsByEmail`: some stored email equals `email`, ignoring case. */
    method ExistsByEmail(email: string) returns (r: bool)
      requires Valid()
      ensures r == EmailTaken(Rows(), email)
    {
      var rows := Rows();
      r := AnyValue(rows, (d: UserDto) => SameEmail(d, email));
      if r {
        var d :| d in rows.Values && SameEmail(d, email);
        ValueHasKey(rows, d);
      } else {
        forall k | k in rows ensures !SameEmail(rows[k], email) {
          assert rows[k] in rows.Values;
        }
      }
    }

    /** `existsByEmailOrNot`: some user with another id has `email`,
        ignoring case. */
    method ExistsByEmailOrNot(email: string, id: int) returns (r: bool)
      requires Valid()
      ensures r == EmailTakenByOther(Rows(), email, id)
    {
      var rows := Rows();
      r := AnyValue(rows, (d: UserDto) => SameEmail(d, email) && d.id != Some(id));
      if r {
        var d :| d in rows.Values && SameEmail(d, email) && d.id != Some(id);
        ValueHasKey(rows, d);
      } else {
        forall k | k in rows && k != id ensures !SameEmail(rows[k], email) {
          assert rows[k] in rows.Values;
        }
      }
    }

    /** `existsByEmailAndId`: the derived query, an exact match of both. */
    function ExistsByEmailAndId(email: string, id: int): (r: bool)
      reads this, users.Values
      ensures r <==> EmailAndId(Rows(), email, id)
    {
      id in users && users[id].email == Some(email)
    }
  }
}
