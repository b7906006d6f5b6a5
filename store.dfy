/** The relational store the controllers share: the `users` table, Sanctum's
    personal access tokens, the `to_dos` table, their auto-increment
    counters, and a log of the mails sent. */
module Store {
  import opened Http
  import opened Accounts
  import opened ToDoSchema

  type TokenId = nat

  /** A mail carrying a code to an address. */
  datatype Mail = Mail(to: string, code: nat)

  /** No two users share an email (`unique:users`). */
  predicate UniqueEmails(users: map<UserId, User>) {
    forall u, v :: u in users && v in users && users[u].email == users[v].email ==> u == v
  }

  predicate EmailTaken(users: map<UserId, User>, email: string) {
    exists u :: u in users && users[u].email == email
  }

  /** The user holding an email that is taken. */
  ghost function IdOf(users: map<UserId, User>, email: string): (id: UserId)
    requires EmailTaken(users, email)
    ensures id in users && users[id].email == email
  {
    var u :| u in users && users[u].email == email; u
  }

  /** With unique emails, the user holding an email is the one found. */
  lemma IdOfIsHolder(users: map<UserId, User>, email: string, id: UserId)
    requires UniqueEmails(users) && id in users && users[id].email == email
    ensures EmailTaken(users, email) && IdOf(users, email) == id
  {
  }

  class Database {
    var users: map<UserId, User>
    var nextUserId: nat
    /** Each token belongs to the user it was minted for. */
    var tokens: map<TokenId, UserId>
    var nextTokenId: nat
    var todos: map<ToDoId, ToDo>
    var nextToDoId: nat
    /** Mails sent, oldest first. */
    ghost var outbox: seq<Mail>

    ghost predicate Valid()
      reads this
    {
      && (forall u :: u in users ==> u < nextUserId && SlotConsistent(users[u]))
      && UniqueEmails(users)
      && (forall t :: t in tokens ==> t < nextTokenId)
      && (forall i :: i in todos ==> i < nextToDoId)
      && TableConforms(todos, users.Keys)
    }

    constructor ()
      ensures Valid()
      ensures users == map[] && tokens == map[] && todos == map[] && outbox == []
    {
      users, nextUserId := map[], 0;
      tokens, nextTokenId := map[], 0;
      todos, nextToDoId := map[], 0;
      outbox := [];
    }

    /** Sanctum's guard: a token resolves to its user while that user exists. */
    function Resolve(token: TokenId): (r: Option<UserId>)
      reads this
      ensures r.Some? <==> token in tokens && tokens[token] in users
      ensures r.Some? ==> r.value == tokens[token]
    {
      if token in tokens && tokens[token] in users then Some(tokens[token]) else None
    }

    /** `Auth::guard('sanctum')->user()`: the user the request's bearer
        token resolves to, if any. */
    function CurrentUser(bearer: Option<TokenId>): (r: Option<UserId>)
      reads this
      ensures r.Some? ==> r.value in users
      ensures r.Some? <==> bearer.Some? && Resolve(bearer.value).Some?
    {
      if bearer.Some? then Resolve(bearer.value) else None
    }

    /** `User::where('email', ...)->first()`: emails are unique, so the
        user found is the one holding the email. */
    method FindByEmail(email: string) returns (id: Option<UserId>)
      requires Valid()
      ensures id.Some? <==> EmailTaken(users, email)
      ensures id.Some? ==> id.value == IdOf(users, email)
    {
      if u :| u in users && users[u].email == email {
        id := Some(u);
      } else {
        id := None;
      }
    }

    /** `createToken(...)`: a new token for the user, every other token kept. */
    method MintToken(owner: UserId) returns (token: TokenId)
      requires Valid()
      modifies this
      ensures Valid()
      ensures token !in old(tokens) && tokens == old(tokens)[token := owner]
      ensures users == old(users) && todos == old(todos) && outbox == old(outbox)
      ensures nextUserId == old(nextUserId) && nextToDoId == old(nextToDoId)
    {
      token := nextTokenId;
      tokens := tokens[token := owner];
      nextTokenId := nextTokenId + 1;
    }

    /** Writes a changed user record back, keeping its slot consistent and
        its email. */
    method SaveUser(id: UserId, u: User)
      requires Valid() && id in users
      requires SlotConsistent(u) && u.email == users[id].email
      modifies this
      ensures Valid()
      ensures users == old(users)[id := u]
      ensures tokens == old(tokens) && todos == old(todos) && outbox == old(outbox)
      ensures nextUserId == old(nextUserId) && nextTokenId == old(nextTokenId) && nextToDoId == old(nextToDoId)
    {
      users := users[id := u];
    }
  }
}
