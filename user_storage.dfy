/** The in-memory user store of the first version of the service: an id counter,
    the users by id, and the set of e-mails in use.  The maps, the set and the
    counter are fields the methods update in place. */
module UserStorage {
  import opened Common
  import opened Domain

  const EmailExists: Error := AlreadyExisted("Email already exists")

  /** The e-mails of the stored users. */
  function EmailsOf(users: map<int, User>): (r: set<string>)
    ensures forall e :: e in r <==> exists k :: k in users && users[k].email == e
  {
    set k | k in users :: users[k].email
  }

  /** No two stored users share an e-mail. */
  predicate EmailsDistinct(users: map<int, User>)
  {
    forall a, b :: a in users && b in users && a != b ==> users[a].email != users[b].email
  }

  /** Storing a new user with an unused e-mail adds exactly that e-mail. */
  lemma EmailsOfAdd(users: map<int, User>, id: int, u: User)
    requires EmailsDistinct(users) && id !in users && u.email !in EmailsOf(users)
    ensures EmailsOf(users[id := u]) == EmailsOf(users) + {u.email}
    ensures EmailsDistinct(users[id := u])
  {
    var users' := users[id := u];
    forall e | e in EmailsOf(users) + {u.email} ensures e in EmailsOf(users') {
      if e != u.email {
        var k :| k in users && users[k].email == e;
        assert users'[k] == users[k];
      } else {
        assert users'[id].email == e;
      }
    }
  }

  /** Replacing a user by one that keeps its e-mail or takes an unused one swaps the
      old e-mail for the new. */
  lemma EmailsOfReplace(users: map<int, User>, id: int, u: User)
    requires EmailsDistinct(users) && id in users
    requires u.email == users[id].email || u.email !in EmailsOf(users)
    ensures EmailsOf(users[id := u]) == EmailsOf(users) - {users[id].email} + {u.email}
    ensures EmailsDistinct(users[id := u])
  {
    var users' := users[id := u];
    forall e | e in EmailsOf(users') ensures e in EmailsOf(users) - {users[id].email} + {u.email} {
      var k :| k in users' && users'[k].email == e;
      if k != id {
        assert users[k].email == e && users[id].email != e;
      }
    }
    forall e | e in EmailsOf(users) - {users[id].email} + {u.email} ensures e in EmailsOf(users') {
      if e != u.email {
        var k :| k in users && users[k].email == e;
        assert k != id && users'[k] == users[k];
      } else {
        assert users'[id].email == e;
      }
    }
  }

  /** Removing a user frees exactly its e-mail. */
  lemma EmailsOfRemove(users: map<int, User>, id: int)
    requires EmailsDistinct(users) && id in users
    ensures EmailsOf(users - {id}) == EmailsOf(users) - {users[id].email}
    ensures EmailsDistinct(users - {id})
  {
    forall e | e in EmailsOf(users) - {users[id].email} ensures e in EmailsOf(users - {id}) {
      var k :| k in users && users[k].email == e;
      assert k != id && (users - {id})[k] == users[k];
    }
  }

  /** With distinct e-mails, an e-mail in use that is not the user's own is held by
      another user, and only then. */
  lemma EmailClashIsOtherUser(users: map<int, User>, id: int, e: string)
    requires EmailsDistinct(users) && id in users
    ensures (e in EmailsOf(users) && users[id].email != e) <==> exists k :: k in users && k != id && users[k].email == e
  {
    if e in EmailsOf(users) && users[id].email != e {
      var k :| k in users && users[k].email == e;
      assert k != id;
    }
  }

  class UserStorage {
    var nextId: int
    var users: map<int, User>
    var emails: set<string>

    /** The counter is above every id handed out, every user sits under its own id,
        e-mails are distinct and the e-mail set is exactly theirs. */
    predicate Valid()
      reads this
    {
      && nextId >= 1
      && (forall k :: k in users ==> users[k].id == k && 1 <= k < nextId)
      && EmailsDistinct(users)
      && emails == EmailsOf(users)
    }

    constructor ()
      ensures Valid()
      ensures nextId == 1 && users == map[] && emails == {}
    {
      nextId := 1;
      users := map[];
      emails := {};
    }

    /** createUser: an e-mail in use is refused; otherwise the user gets the counter's
        value as its id, the counter moves on and the e-mail is recorded. */
    method CreateUser(user: User) returns (r: Result<User>)
      requires Valid()
      modifies this
      ensures Valid()
      ensures user.email in old(emails) ==> r == Err(EmailExists) && unchanged(this)
      ensures user.email !in old(emails) ==>
        var stored := user.(id := old(nextId));
        && r == Ok(stored)
        && stored.id !in old(users)
        && nextId == old(nextId) + 1
        && users == old(users)[stored.id := stored]
        && emails == old(emails) + {user.email}
    {
      if user.email in emails {
        return Err(EmailExists);
      }
      var stored := user.(id := nextId);
      nextId := nextId + 1;
      EmailsOfAdd(users, stored.id, stored);
      users := users[stored.id := stored];
      emails := emails + {stored.email};
      r := Ok(stored);
    }

    /** getUserById: a copy of the stored user, or nothing. */
    function GetUserById(id: int): (r: Option<User>)
      reads this
      ensures r.Some? <==> id in users
      ensures r.Some? ==> r.value == users[id]
    {
      if id in users then Some(users[id]) else None
    }

    /** getAllUsers: the stored users. */
    function GetAllUsers(): (r: set<User>)
      reads this
      ensures forall u :: u in r <==> exists k :: k in users && users[k] == u
      ensures Valid() ==> forall u, v :: u in r && v in r && u.email == v.email ==> u == v
    {
      set k | k in users :: users[k]
    }

    /** updateUser: an e-mail held by another user is refused; keeping one's own is
        allowed; an id that is not stored fails on the missing entry. */
    method UpdateUser(user: User) returns (r: Result<User>)
      requires Valid()
      modifies this
      ensures Valid()
      ensures user.id !in old(users) ==> r == Err(NullPointer) && unchanged(this)
      ensures user.id in old(users) ==>
        && (r.Err? <==> exists k :: k in old(users) && k != user.id && old(users)[k].email == user.email)
        && (r.Err? ==> r == Err(EmailExists) && unchanged(this))
        && (r.Ok? ==>
              && r == Ok(user)
              && nextId == old(nextId)
              && users == old(users)[user.id := user]
              && emails == old(emails) - {old(users)[user.id].email} + {user.email})
    {
      if user.id !in users {
        return Err(NullPointer);
      }
      EmailClashIsOtherUser(users, user.id, user.email);
      if user.email in emails && users[user.id].email != user.email {
        return Err(EmailExists);
      }
      EmailsOfReplace(users, user.id, user);
      emails := emails - {users[user.id].email};
      users := users[user.id := user];
      emails := emails + {user.email};
      r := Ok(user);
    }

    /** deleteUser: the user and its e-mail go; an id that is not stored fails on the
        empty Optional. */
    method DeleteUser(id: int) returns (r: Result<()>)
      requires Valid()
      modifies this
      ensures Valid()
      ensures id !in old(users) ==> r == Err(NoSuchElement) && unchanged(this)
      ensures id in old(users) ==>
        && r == Ok(())
        && nextId == old(nextId)
        && users == old(users) - {id}
        && emails == old(emails) - {old(users)[id].email}
        && GetUserById(id).None?
    {
      if GetUserById(id).None? {
        return Err(NoSuchElement);
      }
      EmailsOfRemove(users, id);
      emails := emails - {GetUserById(id).value.email};
      users := users - {id};
      r := Ok(());
    }
  }
}
