/**
 * The store behind the endpoints of main.py, updated in place: one method
 * per handler, each proved to take the store from its old value to the
 * value the matching `Transitions` function gives, and to answer what the
 * handler answers.
 */
module Squad {
  import opened Wrappers
  import opened Records
  import opened Auth
  import opened Transitions

  /** A handler's answer: its `{"msg": ..}` body, or the HTTPException it raises. */
  datatype Reply = Ok(msg: string) | Fail(status: nat, detail: Option<string>)

  /** The 401 of `get_current_user`. */
  const Unauthorized := Fail(401, None)

  class HangoutStore {
    var users: set<string>
    var hangouts: seq<Hangout>
    var participants: seq<Participant>
    var messages: seq<Message>
    var nextId: nat

    /** The whole store as one value. */
    function Snapshot(): State
      reads this
    {
      State(users, hangouts, participants, messages, nextId)
    }

    ghost predicate Valid()
      reads this
    {
      Transitions.Valid(Snapshot())
    }

    /** A fresh database (`create_all` on an empty file). */
    constructor ()
      ensures Valid() && Snapshot() == Initial
    {
      users, hangouts, participants, messages, nextId := {}, [], [], [], 1;
    }

    /** `register`: "Username taken" for a known name, otherwise the name is added. */
    method Register(name: string) returns (reply: Reply)
      requires Valid()
      modifies this
      ensures Valid()
      ensures Snapshot() == AfterRegister(old(Snapshot()), name)
      ensures reply == if name in old(users) then Fail(400, Some("Username taken")) else Ok("User created")
    {
      if name in users {
        return Fail(400, Some("Username taken"));
      }
      RegisterKeepsValid(Snapshot(), name);
      users := users + {name};
      reply := Ok("User created");
    }

    /** `create_hangout`: the caller hosts a new hangout and is its first recorded participant. */
    method CreateHangout(claims: Claims, title: string, location: string, image: Option<string>) returns (reply: Reply)
      requires Valid()
      modifies this
      ensures Valid()
      ensures Resolve(old(users), claims).None? ==> reply == Unauthorized && Snapshot() == old(Snapshot())
      ensures Resolve(old(users), claims).Some? ==>
        && reply == Ok("Created")
        && Snapshot() == AfterCreate(old(Snapshot()), Resolve(old(users), claims).value, title, location, image)
    {
      var caller := Resolve(users, claims);
      if caller.None? {
        return Unauthorized;
      }
      var host := caller.value;
      CreateKeepsValid(Snapshot(), host, title, location, image);
      var id := nextId;
      hangouts := hangouts + [Hangout(id, title, location, host, image)];
      nextId := nextId + 1;
      participants := participants + [Participant(id, host)];
      reply := Ok("Created");
    }

    /** `join_hangout`: the caller's participant row is added unless it is already there. */
    method JoinHangout(claims: Claims, hangoutId: int) returns (reply: Reply)
      requires Valid()
      modifies this
      ensures Valid()
      ensures Resolve(old(users), claims).None? ==> reply == Unauthorized && Snapshot() == old(Snapshot())
      ensures Resolve(old(users), claims).Some? ==>
        && reply == Ok("Joined")
        && Snapshot() == AfterJoin(old(Snapshot()), hangoutId, Resolve(old(users), claims).value)
    {
      var caller := Resolve(users, claims);
      if caller.None? {
        return Unauthorized;
      }
      var user := caller.value;
      JoinKeepsValid(Snapshot(), hangoutId, user);
      if Participant(hangoutId, user) !in participants {
        participants := participants + [Participant(hangoutId, user)];
      }
      reply := Ok("Joined");
    }

    /** `delete_hangout`: only the host deletes, and the hangout's rows go with it. */
    method DeleteHangout(claims: Claims, hangoutId: int) returns (reply: Reply)
      requires Valid()
      modifies this
      ensures Valid()
      ensures Resolve(old(users), claims).None? ==> reply == Unauthorized && Snapshot() == old(Snapshot())
      ensures Resolve(old(users), claims).Some? ==>
        && reply == Ok("Deleted")
        && Snapshot() == AfterDelete(old(Snapshot()), hangoutId, Resolve(old(users), claims).value)
    {
      var caller := Resolve(users, claims);
      if caller.None? {
        return Unauthorized;
      }
      var user := caller.value;
      DeleteKeepsValid(Snapshot(), hangoutId, user);
      var hangout := FindHangout(hangouts, hangoutId);
      if hangout.Some? && hangout.value.host == user {
        hangouts := HangoutsWithout(hangouts, hangoutId);
        participants := ParticipantsWithout(participants, hangoutId);
        messages := MessagesWithout(messages, hangoutId);
      }
      reply := Ok("Deleted");
    }

    /** `send_message`: the message is appended, then the bot's reply when the text calls it. */
    method SendMessage(claims: Claims, hangoutId: int, text: string, pick: nat) returns (reply: Reply)
      requires Valid()
      modifies this
      ensures Valid()
      ensures Resolve(old(users), claims).None? ==> reply == Unauthorized && Snapshot() == old(Snapshot())
      ensures Resolve(old(users), claims).Some? ==>
        && reply == Ok("Sent")
        && Snapshot() == AfterSend(old(Snapshot()), hangoutId, Resolve(old(users), claims).value, text, pick)
    {
      var caller := Resolve(users, claims);
      if caller.None? {
        return Unauthorized;
      }
      var user := caller.value;
      SendKeepsValid(Snapshot(), hangoutId, user, text, pick);
      messages := messages + [Message(hangoutId, user, text)];
      if SquadBot.Triggers(text) {
        messages := messages + [Message(hangoutId, SquadBot.BotName, SquadBot.BotReply(pick))];
      }
      reply := Ok("Sent");
    }

    /**
     * `get_feed`: one entry per stored hangout, in store order, each with the
     * hangout's attendee names, their number and its messages. In a valid
     * store every entry lists its host, so no count is zero.
     */
    method Feed() returns (feed: seq<FeedEntry>)
      requires Valid()
      ensures |feed| == |hangouts|
      ensures forall k :: 0 <= k < |feed| ==> Describes(feed[k], hangouts[k], participants, messages)
      ensures forall k :: 0 <= k < |feed| ==> feed[k].host in feed[k].attendees && feed[k].count >= 1
    {
      var results: seq<FeedEntry> := [];
      var i := 0;
      while i < |hangouts|
        invariant i <= |hangouts|
        invariant |results| == i
        invariant forall k :: 0 <= k < i ==> Describes(results[k], hangouts[k], participants, messages)
        invariant forall k :: 0 <= k < i ==> results[k].host in results[k].attendees && results[k].count >= 1
      {
        var h := hangouts[i];
        var names := AttendeesOf(participants, h.id);
        var msgs := MessagesOf(messages, h.id);
        FeedListsHost(Snapshot(), i);
        results := results + [FeedEntry(h.id, h.title, h.location, h.host, h.image, names, |names|, msgs)];
        i := i + 1;
      }
      feed := results;
    }
  }

  /**
   * A client of the store: a second identical join leaves the store as the
   * first left it, and both answer "Joined".
   */
  method JoinTwice(store: HangoutStore, claims: Claims, hangoutId: int) returns (first: Reply, second: Reply)
    requires store.Valid()
    modifies store
    ensures store.Valid()
    ensures Resolve(old(store.users), claims).Some? ==>
      && first == second == Ok("Joined")
      && store.Snapshot() == AfterJoin(old(store.Snapshot()), hangoutId, Resolve(old(store.users), claims).value)
  {
    first := store.JoinHangout(claims, hangoutId);
    second := store.JoinHangout(claims, hangoutId);
    if Resolve(old(store.users), claims).Some? {
      JoinIdempotent(old(store.Snapshot()), hangoutId, Resolve(old(store.users), claims).value);
    }
  }
}
