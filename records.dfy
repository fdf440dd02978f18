/**
 * The rows of the four tables (main.py:37-66) as values, and the queries the
 * handlers run over them: lookup of a hangout by id, the participant and
 * message lists of one hangout (its `participants` and `messages`
 * relationships), and the cascading removal of one hangout's rows.
 * Store order is insertion order.
 */
module Records {
  import opened Wrappers

  /** A hangouts_v3 row; `image` is the optional `image_data`. */
  datatype Hangout = Hangout(id: nat, title: string, location: string, host: string, image: Option<string>)

  /** A participants_v3 row. The hangout id is whatever the caller sent. */
  datatype Participant = Participant(hangoutId: int, username: string)

  /** A messages_v3 row. */
  datatype Message = Message(hangoutId: int, username: string, text: string)

  /** One `{"user": .., "text": ..}` object of a feed entry. */
  datatype FeedMessage = FeedMessage(user: string, text: string)

  /** One object of the `feed` list returned by `get_feed`. */
  datatype FeedEntry = FeedEntry(
    id: nat, title: string, location: string, host: string, image: Option<string>,
    attendees: seq<string>, count: nat, messages: seq<FeedMessage>)

  predicate NoDuplicates<T(==)>(s: seq<T>) {
    forall i, j :: 0 <= i < j < |s| ==> s[i] != s[j]
  }

  /** `query(Hangout).filter(Hangout.id == id).first()` */
  function FindHangout(hs: seq<Hangout>, id: int): (r: Option<Hangout>)
    ensures r.Some? ==> r.value in hs && r.value.id == id
    ensures r.None? <==> forall k :: 0 <= k < |hs| ==> hs[k].id != id
  {
    if hs == [] then None
    else
      var found := FindHangout(hs[..|hs| - 1], id);
      if found.Some? then found
      else if hs[|hs| - 1].id == id then Some(hs[|hs| - 1])
      else None
  }

  /** `[p.username for p in h.participants]` for the hangout with id `id`. */
  function AttendeesOf(ps: seq<Participant>, id: int): (names: seq<string>)
    ensures |names| <= |ps|
    ensures forall u :: u in names ==> Participant(id, u) in ps
  {
    if ps == [] then []
    else
      var last := ps[|ps| - 1];
      AttendeesOf(ps[..|ps| - 1], id) + (if last.hangoutId == id then [last.username] else [])
  }

  /** `[{"user": m.username, "text": m.text} for m in h.messages]` for the hangout with id `id`. */
  function MessagesOf(ms: seq<Message>, id: int): (msgs: seq<FeedMessage>)
    ensures |msgs| <= |ms|
    ensures forall m :: m in msgs ==> Message(id, m.user, m.text) in ms
  {
    if ms == [] then []
    else
      var last := ms[|ms| - 1];
      MessagesOf(ms[..|ms| - 1], id) + (if last.hangoutId == id then [FeedMessage(last.username, last.text)] else [])
  }

  /** The hangouts other than the one with id `id`, in order. */
  function HangoutsWithout(hs: seq<Hangout>, id: int): (r: seq<Hangout>)
    ensures forall h :: h in r <==> h in hs && h.id != id
  {
    if hs == [] then []
    else
      var last := hs[|hs| - 1];
      HangoutsWithout(hs[..|hs| - 1], id) + (if last.id != id then [last] else [])
  }

  /** The participant rows of hangouts other than `id`, in order. */
  function ParticipantsWithout(ps: seq<Participant>, id: int): (r: seq<Participant>)
    ensures forall p :: p in r <==> p in ps && p.hangoutId != id
  {
    if ps == [] then []
    else
      var last := ps[|ps| - 1];
      ParticipantsWithout(ps[..|ps| - 1], id) + (if last.hangoutId != id then [last] else [])
  }

  /** The message rows of hangouts other than `id`, in order. */
  function MessagesWithout(ms: seq<Message>, id: int): (r: seq<Message>)
    ensures forall m :: m in r <==> m in ms && m.hangoutId != id
  {
    if ms == [] then []
    else
      var last := ms[|ms| - 1];
      MessagesWithout(ms[..|ms| - 1], id) + (if last.hangoutId != id then [last] else [])
  }

  /** `e` is the feed object built from hangout `h` over the given rows. */
  predicate Describes(e: FeedEntry, h: Hangout, ps: seq<Participant>, ms: seq<Message>) {
    && e.id == h.id && e.title == h.title && e.location == h.location
    && e.host == h.host && e.image == h.image
    && e.attendees == AttendeesOf(ps, h.id) && e.count == |e.attendees|
    && e.messages == MessagesOf(ms, h.id)
  }

  /** A name is listed for a hangout exactly when a participant row pairs the two. */
  lemma {:induction false} AttendeesMembership(ps: seq<Participant>, id: int, u: string)
    ensures u in AttendeesOf(ps, id) <==> Participant(id, u) in ps
  {
    if ps != [] {
      var init := ps[..|ps| - 1];
      AttendeesMembership(init, id, u);
      assert ps == init + [ps[|ps| - 1]];
    }
  }

  /** A message is listed for a hangout exactly when a message row of that hangout carries it. */
  lemma {:induction false} MessagesMembership(ms: seq<Message>, id: int, u: string, t: string)
    ensures FeedMessage(u, t) in MessagesOf(ms, id) <==> Message(id, u, t) in ms
  {
    if ms != [] {
      var init := ms[..|ms| - 1];
      MessagesMembership(init, id, u, t);
      assert ms == init + [ms[|ms| - 1]];
    }
  }

  /** Appending a row extends only its own hangout's attendee list, at the end. */
  lemma AttendeesOfAppend(ps: seq<Participant>, p: Participant, id: int)
    ensures AttendeesOf(ps + [p], id) == AttendeesOf(ps, id) + (if p.hangoutId == id then [p.username] else [])
  {
  }

  /** Appending a row extends only its own hangout's message list, at the end. */
  lemma MessagesOfAppend(ms: seq<Message>, m: Message, id: int)
    ensures MessagesOf(ms + [m], id) == MessagesOf(ms, id) + (if m.hangoutId == id then [FeedMessage(m.username, m.text)] else [])
  {
  }

  /** Removing one hangout's rows empties its list and leaves every other list as it was. */
  lemma {:induction false} AttendeesOfWithout(ps: seq<Participant>, id: int, j: int)
    ensures AttendeesOf(ParticipantsWithout(ps, id), j) == if j == id then [] else AttendeesOf(ps, j)
  {
    if ps != [] {
      var init, last := ps[..|ps| - 1], ps[|ps| - 1];
      var w := ParticipantsWithout(init, id);
      AttendeesOfWithout(init, id, j);
      assert AttendeesOf(ps, j) == AttendeesOf(init, j) + (if last.hangoutId == j then [last.username] else []);
      if last.hangoutId != id {
        assert ParticipantsWithout(ps, id) == w + [last];
        AttendeesOfAppend(w, last, j);
      } else {
        assert ParticipantsWithout(ps, id) == w;
      }
    }
  }

  /** Removing one hangout's rows empties its list and leaves every other list as it was. */
  lemma {:induction false} MessagesOfWithout(ms: seq<Message>, id: int, j: int)
    ensures MessagesOf(MessagesWithout(ms, id), j) == if j == id then [] else MessagesOf(ms, j)
  {
    if ms != [] {
      var init, last := ms[..|ms| - 1], ms[|ms| - 1];
      var w := MessagesWithout(init, id);
      MessagesOfWithout(init, id, j);
      assert MessagesOf(ms, j) == MessagesOf(init, j) + (if last.hangoutId == j then [FeedMessage(last.username, last.text)] else []);
      if last.hangoutId != id {
        assert MessagesWithout(ms, id) == w + [last];
        MessagesOfAppend(w, last, j);
      } else {
        assert MessagesWithout(ms, id) == w;
      }
    }
  }

  /** Removing a hangout makes it unfindable and leaves every other lookup as it was. */
  lemma {:induction false} FindHangoutWithout(hs: seq<Hangout>, id: int, j: int)
    ensures FindHangout(HangoutsWithout(hs, id), j) == if j == id then None else FindHangout(hs, j)
  {
    if hs != [] {
      var init, last := hs[..|hs| - 1], hs[|hs| - 1];
      var w := HangoutsWithout(init, id);
      FindHangoutWithout(init, id, j);
      if last.id != id {
        assert HangoutsWithout(hs, id) == w + [last];
        assert (w + [last])[..|w|] == w;
      } else {
        assert HangoutsWithout(hs, id) == w;
      }
    }
  }

  /** A hangout appended under an id no earlier row has is found under that id. */
  lemma FindHangoutAppend(hs: seq<Hangout>, h: Hangout, j: int)
    ensures FindHangout(hs + [h], j) == if FindHangout(hs, j).Some? then FindHangout(hs, j) else if h.id == j then Some(h) else None
  {
  }

  /** Dropping rows keeps a duplicate-free sequence duplicate-free. */
  lemma {:induction false} ParticipantsWithoutNoDuplicates(ps: seq<Participant>, id: int)
    requires NoDuplicates(ps)
    ensures NoDuplicates(ParticipantsWithout(ps, id))
  {
    if ps != [] {
      var init, last := ps[..|ps| - 1], ps[|ps| - 1];
      assert NoDuplicates(init);
      ParticipantsWithoutNoDuplicates(init, id);
      assert last !in init;
    }
  }
}
