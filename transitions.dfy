/**
 * The store as one value and each endpoint's effect on it as a function:
 * the specification the mutating methods of `Squad.HangoutStore` are proved
 * against. The lemmas state what the handlers promise and the invariant
 * every one of them keeps.
 */
module Transitions {
  import opened Wrappers
  import opened Records
  import SquadBot

  /** Registered usernames, then the three tables in store order, then the id the next hangout gets. */
  datatype State = State(
    users: set<string>,
    hangouts: seq<Hangout>,
    participants: seq<Participant>,
    messages: seq<Message>,
    nextId: nat)

  /** A fresh database: empty tables, ids counted from 1. */
  const Initial := State({}, [], [], [], 1)

  /** Ids strictly increase along the sequence, so no two hangouts share one. */
  predicate IdsIncreasing(hs: seq<Hangout>) {
    forall i, j :: 0 <= i < j < |hs| ==> hs[i].id < hs[j].id
  }

  /** Hangouts are stored in the order of their ids, all of them already assigned. */
  predicate IdsAssigned(s: State) {
    && IdsIncreasing(s.hangouts)
    && (forall i :: 0 <= i < |s.hangouts| ==> s.hangouts[i].id < s.nextId)
  }

  /** Every host is registered and is recorded as a participant of the hangout. */
  predicate HostsAttend(s: State) {
    forall i :: 0 <= i < |s.hangouts| ==>
      s.hangouts[i].host in s.users && Participant(s.hangouts[i].id, s.hangouts[i].host) in s.participants
  }

  /** Only registered users are ever recorded as participants. */
  predicate ParticipantsRegistered(s: State) {
    forall p :: p in s.participants ==> p.username in s.users
  }

  /** The invariant every handler keeps. */
  predicate Valid(s: State) {
    IdsAssigned(s) && HostsAttend(s) && ParticipantsRegistered(s)
  }

  // ---------------------------------------------------------------- register

  /** `register` (main.py:121-128): the name joins the registered set. */
  function AfterRegister(s: State, name: string): (r: State)
    ensures r.users == s.users + {name}
    ensures r.(users := s.users) == s
  {
    if name in s.users then s else s.(users := s.users + {name})
  }

  lemma RegisterKeepsValid(s: State, name: string)
    requires Valid(s)
    ensures Valid(AfterRegister(s, name))
  {
  }

  // ---------------------------------------------------------- create_hangout

  /** `create_hangout` (main.py:138-145) by the registered user `host`. */
  function AfterCreate(s: State, host: string, title: string, location: string, image: Option<string>): (r: State)
    ensures r.users == s.users && r.messages == s.messages && r.nextId > s.nextId
    ensures |r.hangouts| == |s.hangouts| + 1 && r.hangouts[..|s.hangouts|] == s.hangouts
    ensures r.hangouts[|s.hangouts|].id == s.nextId && r.hangouts[|s.hangouts|].host == host
    ensures |r.participants| == |s.participants| + 1 && r.participants[..|s.participants|] == s.participants
    ensures Participant(s.nextId, host) in r.participants
  {
    s.(hangouts := s.hangouts + [Hangout(s.nextId, title, location, host, image)],
       participants := s.participants + [Participant(s.nextId, host)],
       nextId := s.nextId + 1)
  }

  /**
   * Creation adds exactly one hangout, under a fresh id and hosted by the
   * caller, and records the caller as its participant; every other hangout,
   * attendee list and message is as before.
   */
  lemma CreateEffect(s: State, host: string, title: string, location: string, image: Option<string>)
    requires Valid(s)
    ensures var r := AfterCreate(s, host, title, location, image);
      && FindHangout(s.hangouts, s.nextId).None?
      && FindHangout(r.hangouts, s.nextId) == Some(Hangout(s.nextId, title, location, host, image))
      && AttendeesOf(r.participants, s.nextId) == AttendeesOf(s.participants, s.nextId) + [host]
      && (forall j :: j != s.nextId ==> FindHangout(r.hangouts, j) == FindHangout(s.hangouts, j))
      && (forall j :: j != s.nextId ==> AttendeesOf(r.participants, j) == AttendeesOf(s.participants, j))
      && r.messages == s.messages && r.users == s.users && r.nextId > s.nextId
  {
  }

  lemma CreateKeepsValid(s: State, host: string, title: string, location: string, image: Option<string>)
    requires Valid(s) && host in s.users
    ensures Valid(AfterCreate(s, host, title, location, image))
  {
  }

  /** Creation records no pair twice, provided nobody joined the new id before it existed. */
  lemma CreateKeepsNoDuplicates(s: State, host: string, title: string, location: string, image: Option<string>)
    requires NoDuplicates(s.participants)
    requires Participant(s.nextId, host) !in s.participants
    ensures NoDuplicates(AfterCreate(s, host, title, location, image).participants)
  {
  }

  /**
   * `join_hangout` accepts an id no hangout has yet, so a user who joins the
   * next id and then creates a hangout is recorded twice and listed twice.
   */
  lemma PreJoinedHostListedTwice()
    ensures var s := AfterJoin(AfterRegister(Initial, "ann"), 1, "ann");
      var r := AfterCreate(s, "ann", "Picnic", "Park", None);
      && Valid(s)
      && !NoDuplicates(r.participants)
      && AttendeesOf(r.participants, 1) == ["ann", "ann"]
  {
    var p := Participant(1, "ann");
    var s := AfterJoin(AfterRegister(Initial, "ann"), 1, "ann");
    assert s == State({"ann"}, [], [p], [], 1);
    var r := AfterCreate(s, "ann", "Picnic", "Park", None);
    assert r.participants == [p] + [p];
    AttendeesOfAppend([p], p, 1);
    AttendeesOfAppend([], p, 1);
    assert r.participants[0] == r.participants[1];
  }

  // ------------------------------------------------------------ join_hangout

  /** `join_hangout` (main.py:147-152); the hangout's existence is not checked. */
  function AfterJoin(s: State, id: int, user: string): (r: State)
    ensures Participant(id, user) in r.participants
    ensures Participant(id, user) in s.participants ==> r == s
    ensures |s.participants| <= |r.participants| <= |s.participants| + 1
    ensures r.participants[..|s.participants|] == s.participants
    ensures r.(participants := s.participants) == s
  {
    if Participant(id, user) in s.participants then s
    else s.(participants := s.participants + [Participant(id, user)])
  }

  /** The caller is listed once more for that hangout unless already listed; no other list changes. */
  lemma JoinAttendees(s: State, id: int, user: string, j: int)
    ensures AttendeesOf(AfterJoin(s, id, user).participants, j) ==
      if j == id && user !in AttendeesOf(s.participants, id)
      then AttendeesOf(s.participants, id) + [user]
      else AttendeesOf(s.participants, j)
  {
    AttendeesMembership(s.participants, id, user);
    AttendeesOfAppend(s.participants, Participant(id, user), j);
  }

  /** A second identical join changes nothing. */
  lemma JoinIdempotent(s: State, id: int, user: string)
    ensures AfterJoin(AfterJoin(s, id, user), id, user) == AfterJoin(s, id, user)
  {
  }

  /** Joining never records a pair twice. */
  lemma JoinKeepsNoDuplicates(s: State, id: int, user: string)
    requires NoDuplicates(s.participants)
    ensures NoDuplicates(AfterJoin(s, id, user).participants)
  {
  }

  lemma JoinKeepsValid(s: State, id: int, user: string)
    requires Valid(s) && user in s.users
    ensures Valid(AfterJoin(s, id, user))
  {
  }

  // ---------------------------------------------------------- delete_hangout

  /** The hangout exists and the caller hosts it (main.py:156-157). */
  predicate MayDelete(s: State, id: int, user: string)
    ensures MayDelete(s, id, user) ==> exists k :: 0 <= k < |s.hangouts| && s.hangouts[k].id == id && s.hangouts[k].host == user
    ensures IdsIncreasing(s.hangouts) && (exists k :: 0 <= k < |s.hangouts| && s.hangouts[k].id == id && s.hangouts[k].host == user) ==> MayDelete(s, id, user)
  {
    var h := FindHangout(s.hangouts, id);
    h.Some? && h.value.host == user
  }

  /**
   * `delete_hangout` (main.py:154-160): the hangout goes, and through the
   * relationships' `cascade="all, delete"` (main.py:50-51) so do its
   * participant and message rows.
   */
  function AfterDelete(s: State, id: int, user: string): (r: State)
    ensures !MayDelete(s, id, user) ==> r == s
  {
    if MayDelete(s, id, user) then
      s.(hangouts := HangoutsWithout(s.hangouts, id),
         participants := ParticipantsWithout(s.participants, id),
         messages := MessagesWithout(s.messages, id))
    else s
  }

  /**
   * An allowed deletion removes the hangout and every participant and
   * message row of it, and nothing else: every other hangout, attendee list
   * and message list is as before.
   */
  lemma DeleteCascades(s: State, id: int, user: string)
    requires MayDelete(s, id, user)
    ensures var r := AfterDelete(s, id, user);
      && FindHangout(r.hangouts, id).None?
      && AttendeesOf(r.participants, id) == []
      && MessagesOf(r.messages, id) == []
      && (forall j :: j != id ==> FindHangout(r.hangouts, j) == FindHangout(s.hangouts, j))
      && (forall j :: j != id ==> AttendeesOf(r.participants, j) == AttendeesOf(s.participants, j))
      && (forall j :: j != id ==> MessagesOf(r.messages, j) == MessagesOf(s.messages, j))
      && (forall h :: h in s.hangouts && h.id != id ==> h in r.hangouts)
      && r.users == s.users && r.nextId == s.nextId
  {
    forall j ensures FindHangout(HangoutsWithout(s.hangouts, id), j) == if j == id then None else FindHangout(s.hangouts, j) {
      FindHangoutWithout(s.hangouts, id, j);
    }
    forall j ensures AttendeesOf(ParticipantsWithout(s.participants, id), j) == if j == id then [] else AttendeesOf(s.participants, j) {
      AttendeesOfWithout(s.participants, id, j);
    }
    forall j ensures MessagesOf(MessagesWithout(s.messages, id), j) == if j == id then [] else MessagesOf(s.messages, j) {
      MessagesOfWithout(s.messages, id, j);
    }
  }

  /** Removing hangouts keeps the rest in id order. */
  lemma {:induction false} HangoutsWithoutOrdered(hs: seq<Hangout>, id: int)
    requires IdsIncreasing(hs)
    ensures IdsIncreasing(HangoutsWithout(hs, id))
  {
    if hs != [] {
      var init, last := hs[..|hs| - 1], hs[|hs| - 1];
      HangoutsWithoutOrdered(init, id);
      var w := HangoutsWithout(init, id);
      if last.id != id {
        var r := w + [last];
        assert HangoutsWithout(hs, id) == r;
        forall i, j | 0 <= i < j < |r| ensures r[i].id < r[j].id {
          assert r[i] == w[i];
          if j < |w| {
            assert r[j] == w[j];
          } else {
            assert w[i] in init;
            var k :| 0 <= k < |init| && init[k] == w[i];
            assert hs[k] == init[k] && r[j] == last && last == hs[|hs| - 1];

          }
        }
      }
    }
  }

  lemma DeleteKeepsValid(s: State, id: int, user: string)
    requires Valid(s)
    ensures Valid(AfterDelete(s, id, user))
  {
    if MayDelete(s, id, user) {
      var r := AfterDelete(s, id, user);
      HangoutsWithoutOrdered(s.hangouts, id);
      forall i | 0 <= i < |r.hangouts|
        ensures r.hangouts[i].id < r.nextId && r.hangouts[i].host in r.users
        ensures Participant(r.hangouts[i].id, r.hangouts[i].host) in r.participants
      {
        KeptHangoutValid(s, id, r.hangouts[i]);
      }
    }
  }

  /** A hangout that survives the deletion of another keeps its host's row. */
  lemma KeptHangoutValid(s: State, id: int, h: Hangout)
    requires Valid(s)
    requires h in HangoutsWithout(s.hangouts, id)
    ensures h.id < s.nextId && h.host in s.users
    ensures Participant(h.id, h.host) in ParticipantsWithout(s.participants, id)
  {
  }

  lemma DeleteKeepsNoDuplicates(s: State, id: int, user: string)
    requires NoDuplicates(s.participants)
    ensures NoDuplicates(AfterDelete(s, id, user).participants)
  {
    ParticipantsWithoutNoDuplicates(s.participants, id);
  }

  // ------------------------------------------------------------ send_message

  /**
   * `send_message` (main.py:162-170); the hangout's existence is not
   * checked. `pick` stands for the draw of `random.choice`.
   */
  function AfterSend(s: State, id: int, user: string, text: string, pick: nat): (r: State)
    ensures r.(messages := s.messages) == s
    ensures |r.messages| == |s.messages| + (if SquadBot.Triggers(text) then 2 else 1)
    ensures r.messages[..|s.messages|] == s.messages
    ensures r.messages[|s.messages|] == Message(id, user, text)
    ensures SquadBot.Triggers(text) ==>
      var bot := r.messages[|s.messages| + 1];
      bot.hangoutId == id && bot.username == SquadBot.BotName && bot.text in SquadBot.Replies
  {
    var sent := s.messages + [Message(id, user, text)];
    if SquadBot.Triggers(text)
    then s.(messages := sent + [Message(id, SquadBot.BotName, SquadBot.BotReply(pick))])
    else s.(messages := sent)
  }

  /** The hangout's message list gains the message, then the bot's answer if triggered; no other list changes. */
  lemma SendMessages(s: State, id: int, user: string, text: string, pick: nat, j: int)
    ensures MessagesOf(AfterSend(s, id, user, text, pick).messages, j) ==
      if j != id then MessagesOf(s.messages, j)
      else (MessagesOf(s.messages, j) + [FeedMessage(user, text)] +
            (if SquadBot.Triggers(text) then [FeedMessage(SquadBot.BotName, SquadBot.BotReply(pick))] else []))
  {
  }

  lemma SendKeepsValid(s: State, id: int, user: string, text: string, pick: nat)
    requires Valid(s)
    ensures Valid(AfterSend(s, id, user, text, pick))
  {
  }

  // ---------------------------------------------------------------- get_feed

  /** In a valid store every hangout's attendee list names its host. */
  lemma FeedListsHost(s: State, k: int)
    requires Valid(s) && 0 <= k < |s.hangouts|
    ensures s.hangouts[k].host in AttendeesOf(s.participants, s.hangouts[k].id)
  {
    AttendeesMembership(s.participants, s.hangouts[k].id, s.hangouts[k].host);
  }
}
