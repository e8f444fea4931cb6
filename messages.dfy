/**
  The flat-file message store: its rows, the `{lastId, messages}` document, the append
  that allocates the next id, and the per-room listing (filter by room, then a stable
  sort by timestamp).
 */
module Messages {

  /** One stored chat row. Timestamps are clock readings, modelled as integers. */
  datatype Message = Message(id: nat, chatName: string, sender: string, text: string, timestamp: int)

  /** The store document: the last allocated id and every row of every room, in insertion order. */
  datatype Store = Store(lastId: nat, messages: seq<Message>)

  /** The document written when no store file exists yet. */
  const InitialStore: Store := Store(0, [])

  /** Ids grow strictly along the list. */
  predicate IdsIncreasing(ms: seq<Message>)
  {
    forall i, j :: 0 <= i < j < |ms| ==> ms[i].id < ms[j].id
  }

  /** The store invariant: ids strictly increase in list order, are positive, and none exceeds `lastId`. */
  predicate ValidStore(s: Store)
  {
    && IdsIncreasing(s.messages)
    && (forall i :: 0 <= i < |s.messages| ==> 1 <= s.messages[i].id <= s.lastId)
  }

  // ---------------------------------------------------------------------------
  // Append
  // ---------------------------------------------------------------------------

  /** The row the append handler builds: the next id, the request's fields, the clock reading. */
  function NewRow(s: Store, chatName: string, sender: string, text: string, now: int): (r: Message)
  {
    Message(s.lastId + 1, chatName, sender, text, now)
  }

  /** `store.lastId = nextId; store.messages.push(messageRow)`. */
  function Append(s: Store, chatName: string, sender: string, text: string, now: int): (r: Store)
  {
    var row := NewRow(s, chatName, sender, text, now);
    Store(row.id, s.messages + [row])
  }

  /** An append on a valid store keeps it valid, and the new id is larger than every stored id. */
  lemma AppendKeepsValid(s: Store, chatName: string, sender: string, text: string, now: int)
    requires ValidStore(s)
    ensures ValidStore(Append(s, chatName, sender, text, now))
    ensures forall m :: m in s.messages ==> m.id < NewRow(s, chatName, sender, text, now).id
    ensures NewRow(s, chatName, sender, text, now) !in s.messages
  {
  }

  /** A request to post, as the append sees it: room, session user, text and clock reading. */
  datatype Post = Post(chatName: string, sender: string, text: string, timestamp: int)

  /** The store after appending `posts` in order, starting from the initial document. */
  function Replay(posts: seq<Post>): (r: Store)
    decreases |posts|
  {
    if posts == [] then InitialStore
    else
      var p := posts[|posts| - 1];
      Append(Replay(posts[..|posts| - 1]), p.chatName, p.sender, p.text, p.timestamp)
  }

  /**
    Every sequence of appends from the initial store numbers the rows 1, 2, 3, ... in list
    order, leaves `lastId` equal to the number of rows, keeps each post's fields, and so
    keeps the store invariant.
   */
  lemma {:induction false} ReplayNumbersRows(posts: seq<Post>)
    ensures |Replay(posts).messages| == |posts| == Replay(posts).lastId
    ensures forall i :: 0 <= i < |posts| ==>
      Replay(posts).messages[i] ==
        Message(i + 1, posts[i].chatName, posts[i].sender, posts[i].text, posts[i].timestamp)
    ensures ValidStore(Replay(posts))
    decreases |posts|
  {
    if posts != [] {
      var init := posts[..|posts| - 1];
      ReplayNumbersRows(init);
      assert forall i :: 0 <= i < |init| ==> init[i] == posts[i];
    }
  }

  // ---------------------------------------------------------------------------
  // Listing one room
  // ---------------------------------------------------------------------------

  /** `messages.filter(m => m.chat_name === chatName)`. */
  function InRoom(ms: seq<Message>, room: string): (r: seq<Message>)
    decreases |ms|
  {
    if ms == [] then []
    else InRoom(ms[..|ms| - 1], room) + (if ms[|ms| - 1].chatName == room then [ms[|ms| - 1]] else [])
  }

  /** The rows carrying timestamp `t`, in their order. */
  function AtTime(ms: seq<Message>, t: int): (r: seq<Message>)
    decreases |ms|
  {
    if ms == [] then []
    else AtTime(ms[..|ms| - 1], t) + (if ms[|ms| - 1].timestamp == t then [ms[|ms| - 1]] else [])
  }

  /** Timestamps never decrease along the list. */
  predicate SortedByTime(ms: seq<Message>)
  {
    forall i, j :: 0 <= i < j < |ms| ==> ms[i].timestamp <= ms[j].timestamp
  }

  /** Ordered by timestamp, and by id among rows with the same timestamp. */
  predicate SortedByTimeThenId(ms: seq<Message>)
  {
    forall i, j :: 0 <= i < j < |ms| ==>
      ms[i].timestamp < ms[j].timestamp || (ms[i].timestamp == ms[j].timestamp && ms[i].id < ms[j].id)
  }

  /** Puts `m` after every row of `r` whose timestamp is not later than its own. */
  function Insert(r: seq<Message>, m: Message): (s: seq<Message>)
    decreases |r|
  {
    if r == [] || r[|r| - 1].timestamp <= m.timestamp then r + [m]
    else Insert(r[..|r| - 1], m) + [r[|r| - 1]]
  }

  /**
    A stable sort on timestamps (insertion sort): the sort with comparator
    `(a, b) => a.timestamp - b.timestamp` that `Array.prototype.sort` performs.
   */
  function SortByTime(ms: seq<Message>): (r: seq<Message>)
    decreases |ms|
  {
    if ms == [] then [] else Insert(SortByTime(ms[..|ms| - 1]), ms[|ms| - 1])
  }

  /** The rows the file store returns for a room. */
  function Listing(ms: seq<Message>, room: string): (r: seq<Message>)
  {
    SortByTime(InRoom(ms, room))
  }

  // ---------------------------------------------------------------------------
  // Unfolding at the end of a list
  // ---------------------------------------------------------------------------

  lemma InRoomSnoc(ms: seq<Message>, m: Message, room: string)
    ensures InRoom(ms + [m], room) == InRoom(ms, room) + (if m.chatName == room then [m] else [])
  {
    assert (ms + [m])[..|ms|] == ms;
  }

  lemma AtTimeSnoc(ms: seq<Message>, m: Message, t: int)
    ensures AtTime(ms + [m], t) == AtTime(ms, t) + (if m.timestamp == t then [m] else [])
  {
    assert (ms + [m])[..|ms|] == ms;
  }

  lemma SortByTimeSnoc(ms: seq<Message>, m: Message)
    ensures SortByTime(ms + [m]) == Insert(SortByTime(ms), m)
  {
    assert (ms + [m])[..|ms|] == ms;
  }

  // ---------------------------------------------------------------------------
  // The filter
  // ---------------------------------------------------------------------------

  /** The filter keeps exactly the rows of the room, each as often as it occurs. */
  lemma {:induction false} InRoomSelects(ms: seq<Message>, room: string)
    ensures forall x :: multiset(InRoom(ms, room))[x] == if x.chatName == room then multiset(ms)[x] else 0
    ensures forall x :: x in InRoom(ms, room) <==> x in ms && x.chatName == room
    decreases |ms|
  {
    if ms != [] {
      var init, last := ms[..|ms| - 1], ms[|ms| - 1];
      InRoomSelects(init, room);
      assert ms == init + [last];
      forall x ensures multiset(InRoom(ms, room))[x] == if x.chatName == room then multiset(ms)[x] else 0 {
        assert multiset(ms) == multiset(init) + multiset{last};
      }
      forall x ensures x in InRoom(ms, room) <==> x in ms && x.chatName == room {
        assert x in InRoom(ms, room) <==> multiset(InRoom(ms, room))[x] > 0;
      }
    }
  }

  /** If ids increase along a list, they still increase along the room's filtered rows. */
  lemma {:induction false} InRoomKeepsIdsIncreasing(ms: seq<Message>, room: string)
    requires IdsIncreasing(ms)
    ensures IdsIncreasing(InRoom(ms, room))
    decreases |ms|
  {
    if ms != [] {
      var init, last := ms[..|ms| - 1], ms[|ms| - 1];
      InRoomKeepsIdsIncreasing(init, room);
      InRoomSelects(init, room);
      var f := InRoom(init, room);
      if last.chatName == room {
        forall i, j | 0 <= i < j < |f| + 1 ensures (f + [last])[i].id < (f + [last])[j].id {
          if j == |f| {
            assert f[i] in init;
            var k :| 0 <= k < |init| && init[k] == f[i];
            assert ms[k] == f[i];
          }
        }
      }
    }
  }

  // ---------------------------------------------------------------------------
  // The stable sort
  // ---------------------------------------------------------------------------

  /** Inserting adds exactly one row. */
  lemma {:induction false} InsertPermutes(r: seq<Message>, m: Message)
    ensures multiset(Insert(r, m)) == multiset(r) + multiset{m}
    ensures forall x :: x in Insert(r, m) <==> x == m || x in r
    decreases |r|
  {
    if !(r == [] || r[|r| - 1].timestamp <= m.timestamp) {
      var init := r[..|r| - 1];
      InsertPermutes(init, m);
      assert r == init + [r[|r| - 1]];
    }
    forall x ensures x in Insert(r, m) <==> x == m || x in r {
      assert x in Insert(r, m) <==> x in multiset(Insert(r, m));
      assert x in r <==> x in multiset(r);
    }
  }

  /** Every row of a time-sorted list is no later than its last row. */
  lemma SortedLastIsLatest(r: seq<Message>, x: Message)
    requires SortedByTime(r) && x in r
    ensures x.timestamp <= r[|r| - 1].timestamp
  {
    var k :| 0 <= k < |r| && r[k] == x;
  }

  /** Inserting into a time-sorted list keeps it sorted. */
  lemma {:induction false} InsertSorted(r: seq<Message>, m: Message)
    requires SortedByTime(r)
    ensures SortedByTime(Insert(r, m))
    decreases |r|
  {
    if r != [] && r[|r| - 1].timestamp > m.timestamp {
      var init, last := r[..|r| - 1], r[|r| - 1];
      InsertSorted(init, m);
      InsertPermutes(init, m);
      var q := Insert(init, m);
      forall i, j | 0 <= i < j < |q| + 1 ensures (q + [last])[i].timestamp <= (q + [last])[j].timestamp {
        if j == |q| {
          assert q[i] in q;
          if q[i] != m {
            SortedLastIsLatest(r, q[i]);
          }
        }
      }
    }
  }

  /** Inserting `m` places it after every row with its own timestamp: per timestamp, order is kept. */
  lemma {:induction false} InsertAtTime(r: seq<Message>, m: Message, t: int)
    ensures AtTime(Insert(r, m), t) == AtTime(r, t) + (if m.timestamp == t then [m] else [])
    decreases |r|
  {
    if r == [] || r[|r| - 1].timestamp <= m.timestamp {
      AtTimeSnoc(r, m, t);
    } else {
      var init, last := r[..|r| - 1], r[|r| - 1];
      assert Insert(r, m) == Insert(init, m) + [last];
      assert AtTime(r, t) == AtTime(init, t) + (if last.timestamp == t then [last] else []);
      InsertAtTime(init, m, t);
      AtTimeSnoc(Insert(init, m), last, t);
    }
  }

  /** The sort returns a time-ordered permutation of its input. */
  lemma {:induction false} SortByTimeSortsAndPermutes(ms: seq<Message>)
    ensures SortedByTime(SortByTime(ms))
    ensures multiset(SortByTime(ms)) == multiset(ms)
    decreases |ms|
  {
    if ms != [] {
      var init, last := ms[..|ms| - 1], ms[|ms| - 1];
      SortByTimeSortsAndPermutes(init);
      InsertSorted(SortByTime(init), last);
      InsertPermutes(SortByTime(init), last);
      assert ms == init + [last];
    }
  }

  /** The sort is stable: the rows sharing a timestamp come out in their input order. */
  lemma {:induction false} SortByTimeStable(ms: seq<Message>, t: int)
    ensures AtTime(SortByTime(ms), t) == AtTime(ms, t)
    decreases |ms|
  {
    if ms != [] {
      var init, last := ms[..|ms| - 1], ms[|ms| - 1];
      assert SortByTime(ms) == Insert(SortByTime(init), last);
      assert AtTime(ms, t) == AtTime(init, t) + (if last.timestamp == t then [last] else []);
      SortByTimeStable(init, t);
      InsertAtTime(SortByTime(init), last, t);
    }
  }

  /** Inserting a row with a larger id than all others keeps the (timestamp, id) order. */
  lemma {:induction false} InsertSortedThenId(r: seq<Message>, m: Message)
    requires SortedByTimeThenId(r)
    requires forall x :: x in r ==> x.id < m.id
    ensures SortedByTimeThenId(Insert(r, m))
    decreases |r|
  {
    if r == [] || r[|r| - 1].timestamp <= m.timestamp {
      forall i, j | 0 <= i < j < |r| + 1
        ensures (r + [m])[i].timestamp < (r + [m])[j].timestamp
             || ((r + [m])[i].timestamp == (r + [m])[j].timestamp && (r + [m])[i].id < (r + [m])[j].id)
      {
        if j == |r| {
          assert r[i] in r;
        }
      }
    } else {
      var init, last := r[..|r| - 1], r[|r| - 1];
      forall x | x in init ensures x.id < m.id {
        var k :| 0 <= k < |init| && init[k] == x;
        assert r[k] == x;
      }
      InsertSortedThenId(init, m);
      InsertPermutes(init, m);
      var q := Insert(init, m);
      forall i, j | 0 <= i < j < |q| + 1
        ensures (q + [last])[i].timestamp < (q + [last])[j].timestamp
             || ((q + [last])[i].timestamp == (q + [last])[j].timestamp && (q + [last])[i].id < (q + [last])[j].id)
      {
        if j == |q| {
          assert q[i] in q;
          if q[i] != m {
            var k :| 0 <= k < |init| && init[k] == q[i];
            assert r[k] == q[i];
          }
        }
      }
    }
  }

  /** Sorting rows whose ids increase orders equal timestamps by id. */
  lemma {:induction false} SortByTimeThenId(ms: seq<Message>)
    requires IdsIncreasing(ms)
    ensures SortedByTimeThenId(SortByTime(ms))
    decreases |ms|
  {
    if ms != [] {
      var init, last := ms[..|ms| - 1], ms[|ms| - 1];
      assert IdsIncreasing(init);
      SortByTimeThenId(init);
      SortByTimeSortsAndPermutes(init);
      forall x | x in SortByTime(init) ensures x.id < last.id {
        assert x in multiset(SortByTime(init));
        var k :| 0 <= k < |init| && init[k] == x;
        assert ms[k] == x;
      }
      InsertSortedThenId(SortByTime(init), last);
    }
  }

  // ---------------------------------------------------------------------------
  // The stable sort is unique
  // ---------------------------------------------------------------------------

  /** `AtTime` keeps exactly the rows with that timestamp. */
  lemma {:induction false} AtTimeMembers(ms: seq<Message>, t: int)
    ensures forall x :: x in AtTime(ms, t) <==> x in ms && x.timestamp == t
    decreases |ms|
  {
    if ms != [] {
      var init, last := ms[..|ms| - 1], ms[|ms| - 1];
      AtTimeMembers(init, t);
      assert ms == init + [last];
    }
  }

  /** A non-empty list has a row at the timestamp of its last row. */
  lemma HasRowAtLastTime(q: seq<Message>)
    requires q != []
    ensures AtTime(q, q[|q| - 1].timestamp) != []
  {
    var last := q[|q| - 1];
    assert AtTime(q, last.timestamp) == AtTime(q[..|q| - 1], last.timestamp) + [last];
  }

  /** A list with no row at any timestamp is empty. */
  lemma OnlyEmptyHasNoRows(q: seq<Message>)
    ensures (forall t :: AtTime(q, t) == []) ==> q == []
  {
    if q != [] {
      HasRowAtLastTime(q);
    }
  }

  /** Two sorted non-empty lists with the same rows per timestamp end at the same timestamp. */
  lemma SameLastTime(r: seq<Message>, q: seq<Message>)
    requires r != [] && q != []
    requires SortedByTime(r) && SortedByTime(q)
    requires forall t :: AtTime(r, t) == AtTime(q, t)
    ensures r[|r| - 1].timestamp == q[|q| - 1].timestamp
  {
    var a, b := r[|r| - 1], q[|q| - 1];
    HasRowAtLastTime(r);
    HasRowAtLastTime(q);
    AtTimeMembers(q, a.timestamp);
    AtTimeMembers(r, b.timestamp);
    var x := AtTime(q, a.timestamp)[0];
    assert x in AtTime(q, a.timestamp);
    SortedLastIsLatest(q, x);
    var y := AtTime(r, b.timestamp)[0];
    assert y in AtTime(r, b.timestamp);
    SortedLastIsLatest(r, y);
  }

  /** If `r + [a]` and `q + [b]` agree on every timestamp and `a`, `b` share theirs, then `a == b` and `r`, `q` agree. */
  lemma SameLastRow(r: seq<Message>, a: Message, q: seq<Message>, b: Message)
    requires a.timestamp == b.timestamp
    requires forall t :: AtTime(r + [a], t) == AtTime(q + [b], t)
    ensures a == b
    ensures forall t :: AtTime(r, t) == AtTime(q, t)
  {
    var T := a.timestamp;
    AtTimeSnoc(r, a, T);
    AtTimeSnoc(q, b, T);
    var n, m := |AtTime(r, T)|, |AtTime(q, T)|;
    assert AtTime(r, T) + [a] == AtTime(q, T) + [b];
    assert n == m;
    assert (AtTime(r, T) + [a])[n] == a;
    assert (AtTime(q, T) + [b])[n] == b;
    assert (AtTime(r, T) + [a])[..n] == AtTime(r, T);
    assert (AtTime(q, T) + [b])[..n] == AtTime(q, T);
    assert AtTime(r, T) == AtTime(q, T);
    forall t ensures AtTime(r, t) == AtTime(q, t) {
      if t != T {
        AtTimeSnoc(r, a, t);
        AtTimeSnoc(q, b, t);
        assert AtTime(r + [a], t) == AtTime(r, t);
        assert AtTime(q + [b], t) == AtTime(q, t);
        assert AtTime(r + [a], t) == AtTime(q + [b], t);
      } else {
        assert AtTime(r, t) == AtTime(q, t);
      }
    }
  }

  /**
    Two time-sorted lists that agree, for every timestamp, on the rows with that timestamp
    and their order, are the same list.
   */
  lemma {:induction false} SortedByTimeUnique(r: seq<Message>, q: seq<Message>)
    requires SortedByTime(r) && SortedByTime(q)
    requires forall t :: AtTime(r, t) == AtTime(q, t)
    ensures r == q
    decreases |r| + |q|
  {
    if r != [] && q != [] {
      var r', a := r[..|r| - 1], r[|r| - 1];
      var q', b := q[..|q| - 1], q[|q| - 1];
      assert r == r' + [a];
      assert q == q' + [b];
      SameLastTime(r, q);
      SameLastRow(r', a, q', b);
      SortedByTimeUnique(r', q');
    } else {
      OnlyEmptyHasNoRows(r);
      OnlyEmptyHasNoRows(q);
    }
  }

  // ---------------------------------------------------------------------------
  // What a listing is
  // ---------------------------------------------------------------------------

  /**
    A correct answer for `room`: ordered by timestamp, and for every timestamp holding
    exactly the room's rows with that timestamp, in insertion order.
   */
  ghost predicate IsRoomListing(ms: seq<Message>, room: string, r: seq<Message>)
  {
    SortedByTime(r) && forall t :: AtTime(r, t) == AtTime(InRoom(ms, room), t)
  }

  /** The listing is the one and only correct answer for the room. */
  lemma ListingCharacterized(ms: seq<Message>, room: string, r: seq<Message>)
    ensures IsRoomListing(ms, room, r) <==> r == Listing(ms, room)
  {
    SortByTimeSortsAndPermutes(InRoom(ms, room));
    forall t ensures AtTime(Listing(ms, room), t) == AtTime(InRoom(ms, room), t) {
      SortByTimeStable(InRoom(ms, room), t);
    }
    if IsRoomListing(ms, room, r) {
      SortedByTimeUnique(r, Listing(ms, room));
    }
  }

  /**
    A listing holds exactly the rows of the room, each as often as it is stored, with
    non-decreasing timestamps; rows of other rooms never appear.
   */
  lemma ListingSelectsRoom(ms: seq<Message>, room: string)
    ensures SortedByTime(Listing(ms, room))
    ensures forall x :: multiset(Listing(ms, room))[x] == if x.chatName == room then multiset(ms)[x] else 0
    ensures forall x :: x in Listing(ms, room) <==> x in ms && x.chatName == room
  {
    InRoomSelects(ms, room);
    SortByTimeSortsAndPermutes(InRoom(ms, room));
    forall x ensures x in Listing(ms, room) <==> x in InRoom(ms, room) {
      assert x in Listing(ms, room) <==> x in multiset(Listing(ms, room));
    }
  }

  /** In a valid store, rows with equal timestamps are listed in id order, which is insertion order. */
  lemma ListingBreaksTiesById(s: Store, room: string)
    requires ValidStore(s)
    ensures SortedByTimeThenId(Listing(s.messages, room))
  {
    InRoomKeepsIdsIncreasing(s.messages, room);
    SortByTimeThenId(InRoom(s.messages, room));
  }

  // ---------------------------------------------------------------------------
  // Append, then list
  // ---------------------------------------------------------------------------

  /** An appended row is listed in its room exactly once, with all its fields. */
  lemma AppendedRowListedOnce(s: Store, chatName: string, sender: string, text: string, now: int)
    requires ValidStore(s)
    ensures multiset(Listing(Append(s, chatName, sender, text, now).messages, chatName))
              [NewRow(s, chatName, sender, text, now)] == 1
  {
    var row := NewRow(s, chatName, sender, text, now);
    AppendKeepsValid(s, chatName, sender, text, now);
    ListingSelectsRoom(s.messages + [row], chatName);
    assert multiset(s.messages + [row]) == multiset(s.messages) + multiset{row};
  }

  /** An append leaves the listing of every other room as it was. */
  lemma AppendKeepsOtherRooms(s: Store, chatName: string, sender: string, text: string, now: int, room: string)
    requires room != chatName
    ensures Listing(Append(s, chatName, sender, text, now).messages, room) == Listing(s.messages, room)
  {
    var row := NewRow(s, chatName, sender, text, now);
    assert Append(s, chatName, sender, text, now).messages == s.messages + [row];
    InRoomSnoc(s.messages, row, room);
    assert InRoom(s.messages + [row], room) == InRoom(s.messages, room);
  }

  /** When the clock has not gone back, the appended row comes last in its room's listing. */
  lemma AppendListedLast(s: Store, chatName: string, sender: string, text: string, now: int)
    requires forall m :: m in s.messages ==> m.timestamp <= now
    ensures Listing(Append(s, chatName, sender, text, now).messages, chatName)
         == Listing(s.messages, chatName) + [NewRow(s, chatName, sender, text, now)]
  {
    var row := NewRow(s, chatName, sender, text, now);
    InRoomSnoc(s.messages, row, chatName);
    var f := InRoom(s.messages, chatName);
    SortByTimeSnoc(f, row);
    var sorted := SortByTime(f);
    if sorted != [] {
      SortByTimeSortsAndPermutes(f);
      InRoomSelects(s.messages, chatName);
      assert sorted[|sorted| - 1] in multiset(f);
    }
  }
}
