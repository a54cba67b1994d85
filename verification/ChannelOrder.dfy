/**
 * The channels of a server. The order among the channels with the same parent is a linked list
 * hidden in a hash map: every channel stores the id of its predecessor, zero for the first one.
 */
module ChannelOrder {
  import opened Prelude

  type Id = nat

  datatype Channel = Channel(id: Id, parent: Id, order: Id)

  type Channels = map<Id, Channel>

  /** What changed, with the old value. */
  datatype Event =
    | OrderChanged(id: Id, order: Id)
    | ParentChanged(id: Id, parent: Id)
    | Added(id: Id)
    | Removed(channel: Channel)

  datatype Result = Ok | NotFound(id: Id)

  // Taking events back.

  function Revert(channels: Channels, event: Event): Channels {
    match event
    case OrderChanged(id, order) => if id in channels then channels[id := channels[id].(order := order)] else channels
    case ParentChanged(id, parent) =>
      if id in channels then channels[id := channels[id].(parent := parent)] else channels
    case Added(id) => channels - {id}
    case Removed(channel) => channels[channel.id := channel]
  }

  /** All events taken back, the last one first. */
  function RevertAll(channels: Channels, events: seq<Event>): Channels
    decreases |events|
  {
    if events == [] then channels
    else RevertAll(Revert(channels, events[|events| - 1]), events[..|events| - 1])
  }

  lemma {:induction false} RevertAllAppends(channels: Channels, a: seq<Event>, b: seq<Event>)
    ensures RevertAll(channels, a + b) == RevertAll(RevertAll(channels, b), a)
    decreases |b|
  {
    if b == [] {
      assert a + b == a;
    } else {
      var last := |b| - 1;
      assert (a + b)[..|a + b| - 1] == a + b[..last];
      RevertAllAppends(Revert(channels, b[last]), a, b[..last]);
    }
  }

  lemma RevertOne(channels: Channels, e: Event)
    ensures RevertAll(channels, [e]) == Revert(channels, e)
  {
    assert [e][..0] == [];
  }

  /** The events tell how to get back from one state to an earlier one. */
  ghost predicate LeadsBack(before: Channels, after: Channels, events: seq<Event>) {
    RevertAll(after, events) == before
  }

  lemma LeadsBackThrough(before: Channels, between: Channels, after: Channels, a: seq<Event>, b: seq<Event>)
    requires LeadsBack(before, between, a) && LeadsBack(between, after, b)
    ensures LeadsBack(before, after, a + b)
  {
    RevertAllAppends(after, a, b);
  }

  // The lists that the map stands for.

  function ListOf(lists: map<Id, seq<Id>>, parent: Id): seq<Id> {
    if parent in lists then lists[parent] else []
  }

  function Previous(s: seq<Id>, i: nat): Id
    requires i <= |s|
  {
    if i == 0 then 0 else s[i - 1]
  }

  /** The channels of a list refer to their predecessors. */
  ghost predicate Linked(channels: Channels, parent: Id, s: seq<Id>) {
    forall i {:trigger channels[s[i]]} {:trigger s[i] in channels} :: 0 <= i < |s| ==>
      s[i] in channels && channels[s[i]].parent == parent && channels[s[i]].order == Previous(s, i)
  }

  /** The channels of a parent are all in the list. */
  ghost predicate Complete(channels: Channels, parent: Id, s: seq<Id>) {
    forall k {:trigger channels[k]} {:trigger k in channels} :: k in channels && channels[k].parent == parent ==> k in s
  }

  ghost predicate WellKeyed(channels: Channels) {
    0 !in channels && forall k {:trigger channels[k]} {:trigger k in channels} :: k in channels ==> channels[k].id == k
  }

  ghost predicate Represents(channels: Channels, lists: map<Id, seq<Id>>) {
    WellKeyed(channels)
    && forall p: Id {:trigger ListOf(lists, p)} ::
         Linked(channels, p, ListOf(lists, p)) && Complete(channels, p, ListOf(lists, p))
  }

  /** Nothing is listed twice. */
  lemma {:induction false} LinkedIsDistinct(channels: Channels, parent: Id, s: seq<Id>, i: nat, j: nat)
    requires WellKeyed(channels) && Linked(channels, parent, s) && i < j < |s|
    ensures s[i] != s[j]
  {
    assert channels[s[j]].order == s[j - 1] && s[j - 1] in channels;
    if i > 0 {
      LinkedIsDistinct(channels, parent, s, i - 1, j - 1);
      assert channels[s[i]].order == s[i - 1];
    } else {
      assert channels[s[i]].order == 0;
    }
  }

  /** A map represents the list of a parent in at most one way. */
  lemma {:induction false} ListIsUnique(channels: Channels, parent: Id, s: seq<Id>, t: seq<Id>, n: nat)
    requires WellKeyed(channels) && n <= |s|
    requires Linked(channels, parent, s) && Complete(channels, parent, s)
    requires Linked(channels, parent, t) && Complete(channels, parent, t)
    ensures n <= |t| && s[..n] == t[..n]
  {
    if n > 0 {
      ListIsUnique(channels, parent, s, t, n - 1);
      var x := s[n - 1];
      assert x in channels && channels[x].parent == parent && channels[x].order == Previous(s, n - 1);
      var j :| 0 <= j < |t| && t[j] == x;
      assert channels[t[j]].order == Previous(t, j);
      assert Previous(t, j) == Previous(t, n - 1) by {
        assert n > 1 ==> s[n - 2] == s[..n - 1][n - 2] == t[..n - 1][n - 2];
      }
      if j < n - 1 {
        PreviousIsInjective(channels, parent, t, j, n - 1);
      } else if n - 1 < j {
        PreviousIsInjective(channels, parent, t, n - 1, j);
      }
      assert s[..n] == s[..n - 1] + [x];
    }
  }

  lemma PreviousIsInjective(channels: Channels, parent: Id, s: seq<Id>, i: nat, j: nat)
    requires WellKeyed(channels) && Linked(channels, parent, s) && i < j <= |s|
    ensures Previous(s, i) != Previous(s, j)
  {
    assert s[j - 1] in channels;
    if i > 0 {
      LinkedIsDistinct(channels, parent, s, i - 1, j - 1);
    }
  }

  // Operations on lists.

  function IndexOf(s: seq<Id>, id: Id): (i: nat)
    requires id in s
    ensures i < |s| && s[i] == id && id !in s[..i]
  {
    if s[0] == id then 0 else 1 + IndexOf(s[1..], id)
  }

  /** A position after a predecessor; zero stands for the front. */
  predicate CanFollow(s: seq<Id>, order: Id) {
    order == 0 || order in s
  }

  function InsertAfter(s: seq<Id>, order: Id, id: Id): seq<Id>
    requires CanFollow(s, order)
  {
    var j := if order == 0 then 0 else IndexOf(s, order) + 1;
    s[..j] + [id] + s[j..]
  }

  function Without(s: seq<Id>, id: Id): seq<Id> {
    if id in s then
      var i := IndexOf(s, id);
      s[..i] + s[i + 1..]
    else s
  }

  // Following the links.

  /** At most one channel got another order, and an event tells its old one. */
  ghost predicate Relinked(
    before: Channels, after: Channels, matches: Channel -> bool, order: Id, events: seq<Event>)
  {
    if events == [] then
      after == before && forall k {:trigger before[k]} {:trigger k in before} :: k in before ==> !matches(before[k])
    else
      |events| == 1 && events[0].OrderChanged?
      && var k := events[0].id;
      k in before && matches(before[k]) && events[0].order == before[k].order
      && after == before[k := before[k].(order := order)]
  }

  lemma RelinkedLeadsBack(before: Channels, after: Channels, matches: Channel -> bool, order: Id, events: seq<Event>)
    requires Relinked(before, after, matches, order, events)
    ensures LeadsBack(before, after, events)
  {
    if events != [] {
      assert events == [events[0]];
      RevertOne(after, events[0]);
      assert before[events[0].id].(order := order).(order := events[0].order) == before[events[0].id];
    }
  }

  function Follows(id: Id): Channel -> bool {
    (c: Channel) => c.order == id && c.id != id
  }

  function FollowsAt(id: Id, order: Id, parent: Id): Channel -> bool {
    (c: Channel) => c.order == order && c.parent == parent && c.id != id
  }

  /** All matching channels, but at most one matches. */
  ghost predicate RelinkedAll(before: Channels, after: Channels, matches: Channel -> bool, order: Id) {
    after.Keys == before.Keys
    && forall k {:trigger after[k]} {:trigger before[k]} :: k in before ==>
         after[k] == if matches(before[k]) then before[k].(order := order) else before[k]
  }

  lemma RelinkingOneIsAll(
      before: Channels, after: Channels, matches: Channel -> bool, order: Id, events: seq<Event>, only: Id)
    requires Relinked(before, after, matches, order, events)
    requires forall k {:trigger before[k]} :: k in before && matches(before[k]) ==> k == only
    ensures RelinkedAll(before, after, matches, order)
  {
  }

  /** In a list, the successor of a channel is the only one that refers to it. */
  lemma OnlyFollower(channels: Channels, lists: map<Id, seq<Id>>, id: Id, k: Id)
    requires Represents(channels, lists) && id in channels && k in channels && channels[k].order == id
    ensures var p := channels[id].parent;
      var s := ListOf(lists, p);
      && channels[k].parent == p && id in s && IndexOf(s, id) + 1 < |s| && k == s[IndexOf(s, id) + 1]
  {
    var q := channels[k].parent;
    var s := ListOf(lists, q);
    assert k in s && Linked(channels, q, s);
    var j :| 0 <= j < |s| && s[j] == k;
    assert channels[s[j]].order == Previous(s, j) == id;
    assert s[j - 1] == id && id in s;
    assert channels[s[j - 1]].parent == q;
    AtIndexOf(channels, q, s, j - 1);
  }

  lemma AtIndexOf(channels: Channels, parent: Id, s: seq<Id>, i: nat)
    requires WellKeyed(channels) && Linked(channels, parent, s) && i < |s|
    ensures IndexOf(s, s[i]) == i
  {
    var j := IndexOf(s, s[i]);
    if j < i {
      LinkedIsDistinct(channels, parent, s, j, i);
    }
  }

  /** Taking a channel out of its list. */
  lemma RemovalIsWithout(
      before: Channels, lists: map<Id, seq<Id>>, id: Id, current: Channels, after: Channels, events: seq<Event>)
    requires Represents(before, lists) && id in before
    requires current - {id} == before - {id}
    requires id in current ==> current[id].id == id
    requires Relinked(current, after, Follows(id), before[id].order, events)
    ensures var p := before[id].parent;
      Represents(after - {id}, lists[p := Without(ListOf(lists, p), id)])
  {
    var p, base := before[id].parent, before - {id};
    var s := ListOf(lists, p);
    var next := if IndexOf(s, id) + 1 < |s| then s[IndexOf(s, id) + 1] else 0;
    forall k {:trigger current[k]} | k in current && Follows(id)(current[k])
      ensures k == next
    {
      assert k in base && base[k] == (current - {id})[k];
      OnlyFollower(before, lists, id, k);
    }
    RelinkingOneIsAll(current, after, Follows(id), before[id].order, events, next);
    UnlinkedIsWithout(before, lists, id, after - {id});
  }

  lemma UnlinkedIsWithout(before: Channels, lists: map<Id, seq<Id>>, id: Id, after: Channels)
    requires Represents(before, lists) && id in before
    requires RelinkedAll(before - {id}, after, Follows(id), before[id].order)
    ensures var p := before[id].parent;
      Represents(after, lists[p := Without(ListOf(lists, p), id)])
  {
    var p, base := before[id].parent, before - {id};
    var s := ListOf(lists, p);
    var s' := Without(s, id);
    var lists' := lists[p := s'];
    var i := IndexOf(s, id);
    forall q: Id
      ensures Linked(after, q, ListOf(lists', q)) && Complete(after, q, ListOf(lists', q))
    {
      if q == p {
        WithoutIsLinked(before, p, s, i, after);
      } else {
        var t := ListOf(lists, q);
        assert Linked(before, q, t);
        forall j | 0 <= j < |t|
          ensures t[j] in after && after[t[j]].parent == q && after[t[j]].order == Previous(t, j)
        {
          assert t[j] in before && t[j] != id && base[t[j]] == before[t[j]];
          if before[t[j]].order == id {
            OnlyFollower(before, lists, id, t[j]);
          }
        }
        assert Complete(before, q, t);
      }
    }
  }

  lemma FollowerAt(channels: Channels, p: Id, s: seq<Id>, i: nat, k: nat)
    requires WellKeyed(channels) && Linked(channels, p, s) && i < |s| && k < |s| && i != k
    ensures s[k] in channels && s[i] in channels && channels[s[k]].parent == p && s[k] != s[i]
    ensures channels[s[k]].order == Previous(s, k) && channels[s[i]].order == Previous(s, i)
    ensures channels[s[k]].order == s[i] <==> k == i + 1
  {
    if k < i {
      LinkedIsDistinct(channels, p, s, k, i);
      PreviousIsInjective(channels, p, s, k, i + 1);
    } else {
      LinkedIsDistinct(channels, p, s, i, k);
      if k > i + 1 {
        PreviousIsInjective(channels, p, s, i + 1, k);
      }
    }
  }

  lemma WithoutIsLinked(before: Channels, p: Id, s: seq<Id>, i: nat, after: Channels)
    requires WellKeyed(before) && Linked(before, p, s) && Complete(before, p, s) && i < |s|
    requires RelinkedAll(before - {s[i]}, after, Follows(s[i]), before[s[i]].order)
    ensures Linked(after, p, s[..i] + s[i + 1..]) && Complete(after, p, s[..i] + s[i + 1..])
  {
    var id, base, t := s[i], before - {s[i]}, s[..i] + s[i + 1..];
    forall j | 0 <= j < |t|
      ensures t[j] in after && after[t[j]].parent == p && after[t[j]].order == Previous(t, j)
    {
      var k := if j < i then j else j + 1;
      assert t[j] == s[k];
      FollowerAt(before, p, s, i, k);
      assert base[s[k]] == before[s[k]];
    }
    forall k | k in after && after[k].parent == p
      ensures k in t
    {
      assert base[k] == before[k] && k in s && k != id;
      var j :| 0 <= j < |s| && s[j] == k;
      assert t[if j < i then j else j - 1] == k;
    }
  }

  /** Putting a channel into a list. */
  lemma InsertionIsInsertAfter(
      before: Channels, lists: map<Id, seq<Id>>, c: Channel, after: Channels, events: seq<Event>)
    requires Represents(before - {c.id}, lists) && c.id != 0
    requires c.id in before ==> before[c.id].id == c.id
    requires CanFollow(ListOf(lists, c.parent), c.order)
    requires Relinked(before, after, FollowsAt(c.id, c.order, c.parent), c.id, events)
    ensures Represents(after[c.id := c], lists[c.parent := InsertAfter(ListOf(lists, c.parent), c.order, c.id)])
  {
    var base, s := before - {c.id}, ListOf(lists, c.parent);
    var j := if c.order == 0 then 0 else IndexOf(s, c.order) + 1;
    var next := if j < |s| then s[j] else 0;
    forall k {:trigger before[k]} | k in before && FollowsAt(c.id, c.order, c.parent)(before[k])
      ensures k == next
    {
      assert k in base && base[k] == before[k];
      assert Complete(base, c.parent, s) && Linked(base, c.parent, s);
      AtPrevious(base, c.parent, s, k, j);
    }
    RelinkingOneIsAll(before, after, FollowsAt(c.id, c.order, c.parent), c.id, events, next);
    LinkedInIsInsertAfter(base, lists, c, after[c.id := c]);
  }

  lemma AtPrevious(channels: Channels, parent: Id, s: seq<Id>, k: Id, j: nat)
    requires WellKeyed(channels) && Linked(channels, parent, s) && k in s && j <= |s|
    requires k in channels && channels[k].order == Previous(s, j)
    ensures j < |s| && k == s[j]
  {
    var i :| 0 <= i < |s| && s[i] == k;
    assert channels[s[i]].order == Previous(s, i);
    if i < j {
      PreviousIsInjective(channels, parent, s, i, j);
    } else if j < i {
      PreviousIsInjective(channels, parent, s, j, i);
    }
  }

  lemma LinkedInIsInsertAfter(base: Channels, lists: map<Id, seq<Id>>, c: Channel, after: Channels)
    requires Represents(base, lists) && c.id != 0 && c.id !in base && c.id in after && after[c.id] == c
    requires CanFollow(ListOf(lists, c.parent), c.order)
    requires RelinkedAll(base, after - {c.id}, FollowsAt(c.id, c.order, c.parent), c.id)
    ensures Represents(after, lists[c.parent := InsertAfter(ListOf(lists, c.parent), c.order, c.id)])
  {
    var s := ListOf(lists, c.parent);
    var j := if c.order == 0 then 0 else IndexOf(s, c.order) + 1;
    var lists' := lists[c.parent := InsertAfter(s, c.order, c.id)];
    var rest := after - {c.id};
    assert forall k {:trigger after[k]} :: k in base ==> after[k] == rest[k];
    assert WellKeyed(after);
    forall q: Id
      ensures Linked(after, q, ListOf(lists', q)) && Complete(after, q, ListOf(lists', q))
    {
      var t := ListOf(lists, q);
      assert Linked(base, q, t) && Complete(base, q, t);
      if q == c.parent {
        InsertedIsLinked(base, s, j, c, after);
      } else {
        forall i | 0 <= i < |t|
          ensures t[i] in after && after[t[i]].parent == q && after[t[i]].order == Previous(t, i)
        {
          assert t[i] in base && base[t[i]].parent == q;
        }
      }
    }
  }

  lemma InsertedIsLinked(base: Channels, s: seq<Id>, j: nat, c: Channel, after: Channels)
    requires WellKeyed(base) && Linked(base, c.parent, s) && Complete(base, c.parent, s)
    requires j <= |s| && c.order == Previous(s, j) && c.id !in base && c.id in after && after[c.id] == c
    requires RelinkedAll(base, after - {c.id}, FollowsAt(c.id, c.order, c.parent), c.id)
    ensures Linked(after, c.parent, s[..j] + [c.id] + s[j..]) && Complete(after, c.parent, s[..j] + [c.id] + s[j..])
  {
    var t, rest := s[..j] + [c.id] + s[j..], after - {c.id};
    forall i | 0 <= i < |t|
      ensures t[i] in after && after[t[i]].parent == c.parent && after[t[i]].order == Previous(t, i)
    {
      if i != j {
        var k := if i < j then i else i - 1;
        assert t[i] == s[k] && s[k] in base && base[s[k]].order == Previous(s, k);
        assert after[s[k]] == rest[s[k]];
        if k < j {
          PreviousIsInjective(base, c.parent, s, k, j);
        } else if k > j {
          PreviousIsInjective(base, c.parent, s, j, k);
        }
      }
    }
    forall k | k in after && after[k].parent == c.parent
      ensures k in t
    {
      if k == c.id {
        assert t[j] == k;
      } else {
        assert after[k] == rest[k] && k in s;
        var i :| 0 <= i < |s| && s[i] == k;
        assert t[if i < j then i else i + 1] == k;
      }
    }
  }

  // The messages of the server, on lists.

  function Taken(lists: map<Id, seq<Id>>, c: Channel): map<Id, seq<Id>> {
    lists[c.parent := Without(ListOf(lists, c.parent), c.id)]
  }

  function Put(lists: map<Id, seq<Id>>, c: Channel): map<Id, seq<Id>>
    requires CanFollow(ListOf(lists, c.parent), c.order)
  {
    lists[c.parent := InsertAfter(ListOf(lists, c.parent), c.order, c.id)]
  }

  ghost predicate Consistent(channels: Channels) {
    exists lists {:trigger Represents(channels, lists)} :: Represents(channels, lists)
  }

  /** The predecessor that a channel names is there, next to it. */
  predicate NamesSibling(channels: Channels, c: Channel) {
    c.order == 0 || (c.order in channels && channels[c.order].parent == c.parent)
  }

  lemma SiblingCanBeFollowed(channels: Channels, lists: map<Id, seq<Id>>, c: Channel)
    requires Represents(channels, lists)
    ensures NamesSibling(channels, c) <==> CanFollow(ListOf(lists, c.parent), c.order)
  {
    var s := ListOf(lists, c.parent);
    assert Linked(channels, c.parent, s) && Complete(channels, c.parent, s);
    if c.order in s {
      var i :| 0 <= i < |s| && s[i] == c.order;
      assert s[i] in channels && channels[s[i]].parent == c.parent;
    }
  }

  /** A consistent map only holds channels that name a sibling. */
  lemma ConsistentNamesSiblings(channels: Channels, id: Id)
    requires Consistent(channels) && id in channels
    ensures NamesSibling(channels, channels[id]) && channels[id].order != id
  {
    var lists :| Represents(channels, lists);
    var p := channels[id].parent;
    var s := ListOf(lists, p);
    assert Complete(channels, p, s) && Linked(channels, p, s);
    var i :| 0 <= i < |s| && s[i] == id;
    assert channels[s[i]].order == Previous(s, i);
    if i > 0 {
      assert s[i - 1] in channels && channels[s[i - 1]].parent == p;
      LinkedIsDistinct(channels, p, s, i - 1, i);
    }
  }

  /** In a consistent map nothing else stands at the same place. */
  lemma OnePerPlace(channels: Channels, id: Id, k: Id)
    requires Consistent(channels) && id in channels && k in channels
    requires channels[id].order == channels[k].order && channels[id].parent == channels[k].parent
    ensures id == k
  {
    var lists :| Represents(channels, lists);
    var p := channels[id].parent;
    var s := ListOf(lists, p);
    assert Complete(channels, p, s) && Linked(channels, p, s);
    var i :| 0 <= i < |s| && s[i] == id;
    assert channels[s[i]].order == Previous(s, i);
    AtPrevious(channels, p, s, k, i);
  }

  /** A second insertion finds nothing any more. */
  lemma InsertingTwiceIsOnce(
      before: Channels, lists: map<Id, seq<Id>>, c: Channel, between: Channels, after: Channels, a: seq<Event>,
      b: seq<Event>)
    requires Represents(before, lists) && c.id != 0 && c.id !in before
    requires CanFollow(ListOf(lists, c.parent), c.order)
    requires Relinked(before, between, FollowsAt(c.id, c.order, c.parent), c.id, a)
    requires Relinked(between, after, FollowsAt(c.id, c.order, c.parent), c.id, b)
    ensures after == between && b == []
  {
    SiblingCanBeFollowed(before, lists, c);
    if b != [] {
      var k := b[0].id;
      assert k in before && between[k] == before[k];
      assert a != [];
      var l := a[0].id;
      assert Consistent(before);
      OnePerPlace(before, k, l);
    }
  }

  /** Inserting twice and adding: what becomes of the lists. */
  lemma CreatedKeepsLists(
      before: Channels, c: Channel, between: Channels, after: Channels, a: seq<Event>, b: seq<Event>,
      lists: map<Id, seq<Id>>)
    requires Represents(before, lists) && c.id != 0 && c.id !in before
    requires Relinked(before, between, FollowsAt(c.id, c.order, c.parent), c.id, a)
    requires Relinked(between, after, FollowsAt(c.id, c.order, c.parent), c.id, b)
    ensures CanFollow(ListOf(lists, c.parent), c.order) ==> Represents(after[c.id := c], Put(lists, c))
    ensures Consistent(after[c.id := c]) <==> NamesSibling(before, c)
  {
    SiblingCanBeFollowed(before, lists, c);
    if NamesSibling(before, c) {
      assert before - {c.id} == before;
      InsertingTwiceIsOnce(before, lists, c, between, after, a, b);
      InsertionIsInsertAfter(before, lists, c, between, a);
    }
    if Consistent(after[c.id := c]) {
      ConsistentNamesSiblings(after[c.id := c], c.id);
      assert c.order != 0 ==> c.order in before && before[c.order].parent == c.parent;
    }
  }

  predicate Keeping(events: seq<Event>) {
    forall i {:trigger events[i]} :: 0 <= i < |events| ==> !events[i].Removed?
  }

  lemma {:induction false} RevertAddsNothing(channels: Channels, events: seq<Event>, id: Id)
    requires Keeping(events) && id !in channels
    ensures id !in RevertAll(channels, events)
    decreases |events|
  {
    if events != [] {
      var last := |events| - 1;
      assert !events[last].Removed?;
      RevertAddsNothing(Revert(channels, events[last]), events[..last], id);
    }
  }

  /** The events of a creation lead back, unless it overwrote a channel. */
  lemma CreatedLeadsBackIff(
      before: Channels, c: Channel, between: Channels, after: Channels, a: seq<Event>, b: seq<Event>)
    requires Relinked(before, between, FollowsAt(c.id, c.order, c.parent), c.id, a)
    requires Relinked(between, after, FollowsAt(c.id, c.order, c.parent), c.id, b)
    ensures LeadsBack(before, after[c.id := c], a + b + [Added(c.id)]) <==> c.id !in before
  {
    RelinkedLeadsBack(before, between, FollowsAt(c.id, c.order, c.parent), c.id, a);
    RelinkedLeadsBack(between, after, FollowsAt(c.id, c.order, c.parent), c.id, b);
    LeadsBackThrough(before, between, after, a, b);
    var added := after[c.id := c];
    RevertAllAppends(added, a + b, [Added(c.id)]);
    RevertOne(added, Added(c.id));
    if c.id !in before {
      assert added - {c.id} == after;
    } else {
      RevertAddsNothing(added - {c.id}, a + b, c.id);
    }
  }

  lemma MoveIsTakeAndPut(
      before: Channels, lists: map<Id, seq<Id>>, c: Channel,
      start: Channels, middle: Channels, after: Channels, a: seq<Event>, b: seq<Event>)
    requires Represents(before, lists) && c.id in before && start == before[c.id := before[c.id].(order := c.order)]
    requires Relinked(start, middle, Follows(c.id), before[c.id].order, a)
    requires Relinked(middle, after, FollowsAt(c.id, c.order, c.parent), c.id, b)
    requires CanFollow(ListOf(Taken(lists, before[c.id]), c.parent), c.order)
    ensures Represents(after[c.id := c], Put(Taken(lists, before[c.id]), c))
    ensures c.id in after && after[c.id] == before[c.id].(order := c.order)
  {
    assert start - {c.id} == before - {c.id};
    RemovalIsWithout(before, lists, c.id, start, middle, a);
    InsertionIsInsertAfter(middle, Taken(lists, before[c.id]), c, after, b);
  }

  /** A move to where the channel already is changes no list. */
  lemma MovingNowhere(channels: Channels, lists: map<Id, seq<Id>>, id: Id)
    requires Represents(channels, lists) && id in channels
    ensures var c := channels[id];
      var taken := Taken(lists, c);
      CanFollow(ListOf(taken, c.parent), c.order) && ListOf(Put(taken, c), c.parent) == ListOf(lists, c.parent)
  {
    var c := channels[id];
    var s := ListOf(lists, c.parent);
    assert Complete(channels, c.parent, s) && Linked(channels, c.parent, s);
    var i := IndexOf(s, id);
    assert channels[s[i]].order == Previous(s, i);
    if i > 0 {
      assert s[i - 1] in channels;
      AtIndexOf(channels, c.parent, s, i - 1);
    }
    PutBack(s, i);
  }

  lemma {:induction false} PutBack(s: seq<Id>, i: nat)
    requires i < |s| && IndexOf(s, s[i]) == i
    requires i > 0 ==> s[i - 1] != 0 && IndexOf(s, s[i - 1]) == i - 1
    ensures var t := Without(s, s[i]);
      CanFollow(t, Previous(s, i)) && InsertAfter(t, Previous(s, i), s[i]) == s
  {
    hide IndexOf, InsertAfter;
    var head, x, tail := s[..i], s[i], s[i + 1..];
    var t := head + tail;
    Halves(head, tail);
    assert t[..i] == head;
    if i > 0 {
      SamePrefix(s, t, i);
      IndexInPrefix(s, t, i - 1);
      assert t[i - 1] == s[i - 1];
    }
    PutIn(head, x, tail);
    Whole(s, i);
  }

  lemma Whole(s: seq<Id>, i: nat)
    requires i < |s|
    ensures s == s[..i] + [s[i]] + s[i + 1..]
  {
  }

  lemma Halves(head: seq<Id>, tail: seq<Id>)
    ensures (head + tail)[..|head|] == head && (head + tail)[|head|..] == tail
  {
  }

  lemma PutIn(head: seq<Id>, x: Id, tail: seq<Id>)
    requires var order := if head == [] then 0 else head[|head| - 1];
      head != [] ==> order != 0 && order in head + tail && IndexOf(head + tail, order) == |head| - 1
    ensures var order := if head == [] then 0 else head[|head| - 1];
      CanFollow(head + tail, order) && InsertAfter(head + tail, order, x) == head + [x] + tail
  {
    hide IndexOf;
    Halves(head, tail);
  }

  lemma SamePrefix(s: seq<Id>, t: seq<Id>, i: nat)
    requires 0 < i <= |s| && i <= |t| && s[..i] == t[..i]
    ensures t[i - 1] == s[i - 1]
  {
    assert s[..i][i - 1] == t[..i][i - 1];
  }

  lemma {:induction false} IndexInPrefix(s: seq<Id>, t: seq<Id>, i: nat)
    requires i < |s| && i < |t| && s[..i + 1] == t[..i + 1] && IndexOf(s, s[i]) == i
    ensures t[i] == s[i] && IndexOf(t, t[i]) == i
  {
    assert t[i] == t[..i + 1][i] == s[..i + 1][i];
    assert t[..i] == t[..i + 1][..i] == s[..i + 1][..i] == s[..i];
    assert forall k {:trigger t[k]} :: 0 <= k < i ==> t[k] == t[..i][k];
  }

  class Book {
    var channels: Channels
    var events: seq<Event>

    ghost predicate Valid()
      reads this
    {
      forall k {:trigger channels[k]} {:trigger k in channels} :: k in channels ==> channels[k].id == k
    }

    constructor ()
      ensures Valid() && channels == map[] && events == []
    {
      channels, events := map[], [];
    }

    /** Visits the values of the hash map in any order and links the first match anew. */
    method RelinkFirst(matches: Channel -> bool, order: Id)
      requires Valid()
      modifies this
      ensures Valid() && |old(events)| <= |events| && events[..|old(events)|] == old(events)
      ensures Relinked(old(channels), channels, matches, order, events[|old(events)|..])
    {
      var keys := channels.Keys;
      while keys != {}
        invariant keys <= channels.Keys && channels == old(channels) && events == old(events)
        invariant forall k {:trigger channels[k]} {:trigger k in channels} ::
            k in channels && k !in keys ==> !matches(channels[k])
        decreases |keys|
      {
        var k :| k in keys;
        var c := channels[k];
        if matches(c) {
          events := events + [OrderChanged(c.id, c.order)];
          channels := channels[k := c.(order := order)];
          assert events[|old(events)|..] == [OrderChanged(c.id, c.order)];
          return;
        }
        keys := keys - {k};
      }
      assert events[|old(events)|..] == [];
    }

    method OrderRemove(id: Id, order: Id)
      requires Valid()
      modifies this
      ensures Valid() && |old(events)| <= |events| && events[..|old(events)|] == old(events)
      ensures Relinked(old(channels), channels, Follows(id), order, events[|old(events)|..])
    {
      RelinkFirst(Follows(id), order);
    }

    method OrderInsert(id: Id, order: Id, parent: Id)
      requires Valid()
      modifies this
      ensures Valid() && |old(events)| <= |events| && events[..|old(events)|] == old(events)
      ensures Relinked(old(channels), channels, FollowsAt(id, order, parent), id, events[|old(events)|..])
    {
      RelinkFirst(FollowsAt(id, order, parent), id);
    }

    method AddChannel(c: Channel) returns (ghost between: Channels)
      requires Valid()
      modifies this
      ensures Valid() && |old(events)| <= |events| && events[..|old(events)|] == old(events)
      ensures Relinked(old(channels), between, FollowsAt(c.id, c.order, c.parent), c.id, events[|old(events)|..])
      ensures channels == between[c.id := c]
    {
      OrderInsert(c.id, c.order, c.parent);
      between := channels;
      channels := channels[c.id := c];
    }

    /** A new channel comes after its predecessor, if there is such a sibling. */
    method Created(c: Channel)
      requires Valid()
      modifies this
      ensures Valid() && |old(events)| <= |events| && events[..|old(events)|] == old(events)
      ensures forall lists {:trigger Represents(old(channels), lists)} ::
                Represents(old(channels), lists) && c.id != 0 && c.id !in old(channels) ==>
                  && (CanFollow(ListOf(lists, c.parent), c.order) ==> Represents(channels, Put(lists, c)))
                  && (Consistent(channels) <==> NamesSibling(old(channels), c))
      ensures LeadsBack(old(channels), channels, events[|old(events)|..]) <==> c.id !in old(channels)
    {
      hide Represents, Consistent, LeadsBack, Relinked;
      ghost var before, was := channels, events;
      OrderInsert(c.id, c.order, c.parent);
      ghost var between, first := channels, events[|was|..];
      ghost var inserted := AddChannel(c);
      ghost var second := events[|was| + |first|..];
      events := events + [Added(c.id)];
      assert events[|was|..] == first + second + [Added(c.id)];
      CreatedLeadsBackIff(before, c, between, inserted, first, second);
      forall lists | Represents(before, lists) && c.id != 0 && c.id !in before
        ensures CanFollow(ListOf(lists, c.parent), c.order) ==> Represents(channels, Put(lists, c))
        ensures Consistent(channels) <==> NamesSibling(before, c)
      {
        CreatedKeepsLists(before, c, between, inserted, first, second, lists);
      }
    }

    method RemoveChannel(id: Id) returns (removed: Option<Channel>)
      requires Valid()
      modifies this
      ensures Valid() && |old(events)| <= |events| && events[..|old(events)|] == old(events)
      ensures removed == if id in old(channels) then Some(old(channels)[id]) else None
      ensures removed.None? ==> channels == old(channels) && events == old(events)
      ensures removed.Some? ==>
                Relinked(old(channels) - {id}, channels, Follows(id), removed.value.order, events[|old(events)|..])
    {
      removed := if id in channels then Some(channels[id]) else None;
      channels := channels - {id};
      match removed {
        case None =>
        case Some(c) => OrderRemove(c.id, c.order);
      }
    }

    /** The channel is gone from its list and all others stay in place. */
    method Deleted(id: Id) returns (r: Result)
      requires Valid()
      modifies this
      ensures Valid() && |old(events)| <= |events| && events[..|old(events)|] == old(events)
      ensures r == if id in old(channels) then Ok else NotFound(id)
      ensures r.NotFound? ==> channels == old(channels) && events == old(events)
      ensures r.Ok? ==> id !in channels && forall lists {:trigger Represents(old(channels), lists)} ::
                Represents(old(channels), lists) ==> Represents(channels, Taken(lists, old(channels)[id]))
      ensures LeadsBack(old(channels), channels, events[|old(events)|..])
    {
      hide Represents, LeadsBack;
      ghost var before, was := channels, events;
      var removed := RemoveChannel(id);
      if removed.None? {
        NothingLeadsBack(channels, events);
        return NotFound(id);
      }
      ghost var a := events[|was|..];
      events := events + [Removed(removed.value)];
      assert events[|was|..] == a + [Removed(removed.value)];
      DeletedLeadsBack(before, id, channels, a);
      assert channels - {id} == channels;
      forall lists | Represents(before, lists)
        ensures Represents(channels, Taken(lists, before[id]))
      {
        RemovalIsWithout(before, lists, id, before - {id}, channels, a);
      }
      return Ok;
    }

    /** Links a channel to a new place. Its parent is left alone; without a new place nothing happens. */
    method OrderMove(id: Id, order: Option<Id>, parent: Option<Id>) returns (r: Result)
      requires Valid()
      modifies this
      ensures Valid() && |old(events)| <= |events| && events[..|old(events)|] == old(events)
      ensures order == None == parent ==> r == Ok && channels == old(channels) && events == old(events)
      ensures order != None || parent != None ==> r == if id in old(channels) then Ok else NotFound(id)
      ensures r.NotFound? ==> channels == old(channels) && events == old(events)
      ensures LeadsBack(old(channels), channels, events[|old(events)|..])
      ensures (order != None || parent != None) && r == Ok ==>
                LinkedAnew(old(channels), Target(old(channels)[id], order, parent), channels)
    {
      hide LeadsBack, Relinked, LinkedAnew;
      ghost var before, was := channels, events;
      NothingLeadsBack(channels, events);
      if order.Some? || parent.Some? {
        if id !in channels {
          return NotFound(id);
        }
        var channel := channels[id];
        var oldOrder := channel.order;
        var newParent := if parent.Some? then parent.value else channel.parent;
        if order.Some? {
          events := events + [OrderChanged(channel.id, channel.order)];
          channels := channels[id := channel.(order := order.value)];
        }
        ghost var start, own := channels, events[|was|..];
        OrderRemove(id, oldOrder);
        ghost var middle, a := channels, events[|was| + |own|..];
        OrderInsert(id, if order.Some? then order.value else oldOrder, newParent);
        ghost var b := events[|was| + |own| + |a|..];
        assert events[|was|..] == own + a + b && events[..|was|] == was;
        assert order.None? ==> own == [] && start == before;
        MoveLeadsBack(before, Target(channel, order, parent), start, middle, channels, own, a, b);
      }
      return Ok;
    }

    /** The message that a channel moved: take it from its list and put it into the one named. */
    method Moved(id: Id, order: Id, parent: Id) returns (r: Result)
      requires Valid()
      modifies this
      ensures Valid() && |old(events)| <= |events| && events[..|old(events)|] == old(events)
      ensures r == if id in old(channels) then Ok else NotFound(id)
      ensures r.NotFound? ==> channels == old(channels) && events == old(events)
      ensures LeadsBack(old(channels), channels, events[|old(events)|..])
      ensures r == Ok ==> forall lists {:trigger Represents(old(channels), lists)} ::
                var c := Channel(id, parent, order);
                Represents(old(channels), lists)
                && CanFollow(ListOf(Taken(lists, old(channels)[id]), parent), order) ==>
                  Represents(channels, Put(Taken(lists, old(channels)[id]), c))
      ensures r == Ok ==> forall lists {:trigger Represents(old(channels), lists)} ::
              Represents(old(channels), lists) ==>
                (Consistent(channels) <==> CanFollow(ListOf(Taken(lists, old(channels)[id]), parent), order))
    {
      hide Represents, LeadsBack, LinkedAnew, Taken, Put, Consistent;
      ghost var before, was := channels, events;
      r := OrderMove(id, Some(order), Some(parent));
      if r != Ok {
        return;
      }
      ghost var c, linked, a := Channel(id, parent, order), channels, events[|was|..];
      LinkedAnewKeeps(before, c, linked);
      var channel := channels[id];
      events := events + [ParentChanged(id, channel.parent)];
      channels := channels[id := channel.(parent := parent)];
      assert events[|was|..] == a + [ParentChanged(id, channel.parent)];
      ParentLeadsBack(linked, id, parent);
      LeadsBackThrough(before, linked, channels, a, [ParentChanged(id, channel.parent)]);
      forall lists | Represents(before, lists) && CanFollow(ListOf(Taken(lists, before[id]), parent), order)
        ensures Represents(channels, Put(Taken(lists, before[id]), c))
      {
        LinkedAnewIsTakeAndPut(before, lists, c, linked);
      }
      forall lists | Represents(before, lists)
        ensures Consistent(channels) <==> CanFollow(ListOf(Taken(lists, before[id]), parent), order)
      {
        MovedKeepsListsIff(before, lists, c, linked);
      }
    }

    /**
     * The message that a channel was edited links it to the place named, but the channel keeps its
     * parent: the result is the move exactly if the parent stays.
     */
    method Edited(id: Id, order: Option<Id>, parent: Option<Id>) returns (r: Result)
      requires Valid()
      modifies this
      ensures Valid() && |old(events)| <= |events| && events[..|old(events)|] == old(events)
      ensures order == None == parent ==> r == Ok && channels == old(channels) && events == old(events)
      ensures order != None || parent != None ==> r == if id in old(channels) then Ok else NotFound(id)
      ensures r.NotFound? ==> channels == old(channels) && events == old(events)
      ensures LeadsBack(old(channels), channels, events[|old(events)|..])
      ensures (order != None || parent != None) && r == Ok
              ==> forall lists {:trigger Represents(old(channels), lists)} ::
                var was := old(channels)[id];
                var c := Target(was, order, parent);
                Represents(old(channels), lists) && CanFollow(ListOf(Taken(lists, was), c.parent), c.order) ==>
                  (Represents(channels, Put(Taken(lists, was), c)) <==> c.parent == was.parent)
    {
      hide Represents, LeadsBack, LinkedAnew, Taken, Put;
      ghost var before := channels;
      r := OrderMove(id, order, parent);
      if r == Ok && (order.Some? || parent.Some?) {
        ghost var c := Target(before[id], order, parent);
        forall lists | Represents(before, lists) && CanFollow(ListOf(Taken(lists, before[id]), c.parent), c.order)
          ensures Represents(channels, Put(Taken(lists, before[id]), c)) <==> c.parent == before[id].parent
        {
          EditedIsMovedIff(before, lists, c, channels);
        }
      }
    }

    /** The channel list that a client gets first. */
    method Listed(cs: seq<Channel>)
      requires Valid() && channels == map[]
      modifies this
      ensures Valid()
      ensures Consistent(MapOf(cs)) && |MapOf(cs)| == |cs| ==> channels == MapOf(cs)
    {
      ghost var all := MapOf(cs);
      var i := 0;
      while i < |cs|
        invariant 0 <= i <= |cs| && Valid()
        invariant Consistent(all) && |all| == |cs| ==> channels == MapOf(cs[..i])
      {
        ghost var before, was := channels, events;
        ghost var between := AddChannel(cs[i]);
        if Consistent(all) && |all| == |cs| {
          ListedInAnyOrder(cs, i, between, events[|was|..]);
        }
        i := i + 1;
      }
      assert cs[..i] == cs;
    }
  }

  /** The channels by their ids. */
  function MapOf(cs: seq<Channel>): (m: Channels)
    ensures |m| <= |cs|
    ensures forall k {:trigger m[k]} :: k in m ==> m[k].id == k
  {
    if cs == [] then map[]
    else
      var last := |cs| - 1;
      MapOf(cs[..last])[cs[last].id := cs[last]]
  }

  /** A channel at the place that a message names; what it leaves out stays. */
  function Target(c: Channel, order: Option<Id>, parent: Option<Id>): Channel {
    Channel(c.id, if parent.Some? then parent.value else c.parent, if order.Some? then order.value else c.order)
  }

  /** What a move has to do before and after the links. */
  lemma MoveLeadsBack(
      before: Channels, c: Channel, start: Channels, middle: Channels, after: Channels, own: seq<Event>,
      a: seq<Event>, b: seq<Event>)
    requires c.id in before && start == before[c.id := before[c.id].(order := c.order)]
    requires own == [OrderChanged(c.id, before[c.id].order)] || (own == [] && start == before)
    requires Relinked(start, middle, Follows(c.id), before[c.id].order, a)
    requires Relinked(middle, after, FollowsAt(c.id, c.order, c.parent), c.id, b)
    ensures LeadsBack(before, after, own + a + b) && LinkedAnew(before, c, after)
  {
    if own != [] {
      RevertOne(start, own[0]);
      assert before[c.id].(order := c.order).(order := before[c.id].order) == before[c.id];
      assert start[c.id := before[c.id]] == before;
    }
    assert LeadsBack(before, start, own);
    RelinkedLeadsBack(start, middle, Follows(c.id), before[c.id].order, a);
    RelinkedLeadsBack(middle, after, FollowsAt(c.id, c.order, c.parent), c.id, b);
    LeadsBackThrough(before, start, middle, own, a);
    LeadsBackThrough(before, middle, after, own + a, b);
  }

  /** Both changes of links for a channel that gets a new place. */
  ghost predicate LinkedAnew(before: Channels, c: Channel, after: Channels)
    requires c.id in before
  {
    exists middle, a, b {:trigger Relinked(before[c.id := before[c.id].(order := c.order)], middle, Follows(c.id),
                                           before[c.id].order, a),
                                  Relinked(middle, after, FollowsAt(c.id, c.order, c.parent), c.id, b)} ::
      && Relinked(before[c.id := before[c.id].(order := c.order)], middle, Follows(c.id), before[c.id].order, a)
      && Relinked(middle, after, FollowsAt(c.id, c.order, c.parent), c.id, b)
  }

  lemma LinkedAnewKeeps(before: Channels, c: Channel, after: Channels)
    requires c.id in before && before[c.id].id == c.id && LinkedAnew(before, c, after)
    ensures c.id in after && after[c.id] == before[c.id].(order := c.order)
  {
  }

  lemma LinkedAnewIsTakeAndPut(before: Channels, lists: map<Id, seq<Id>>, c: Channel, after: Channels)
    requires Represents(before, lists) && c.id in before && LinkedAnew(before, c, after)
    requires CanFollow(ListOf(Taken(lists, before[c.id]), c.parent), c.order)
    ensures Represents(after[c.id := c], Put(Taken(lists, before[c.id]), c))
  {
    var start := before[c.id := before[c.id].(order := c.order)];
    var middle, a, b :| Relinked(start, middle, Follows(c.id), before[c.id].order, a)
                        && Relinked(middle, after, FollowsAt(c.id, c.order, c.parent), c.id, b);
    MoveIsTakeAndPut(before, lists, c, start, middle, after, a, b);
  }

  /** The links of other channels may change, but not their parents. */
  lemma LinkedAnewKeepsParents(before: Channels, c: Channel, after: Channels)
    requires c.id in before && LinkedAnew(before, c, after)
    ensures after.Keys == before.Keys && forall k {:trigger after[k]} ::
            k in after ==> after[k].parent == before[k].parent
  {
  }

  lemma SiblingIsListed(channels: Channels, lists: map<Id, seq<Id>>, id: Id, k: Id, p: Id)
    requires Represents(channels, lists) && id in channels && k in channels && k != id
    ensures k in ListOf(Taken(lists, channels[id]), p) <==> channels[k].parent == p
  {
    var s := ListOf(lists, p);
    assert Linked(channels, p, s) && Complete(channels, p, s);
    if k in s {
      var i :| 0 <= i < |s| && s[i] == k;
      assert s[i] in channels && channels[s[i]].parent == p;
    }
    if id in s {
      var i := IndexOf(s, id);
      assert s == s[..i] + [id] + s[i + 1..];
    }
  }

  /** After a move the map holds lists again if and only if the order can be followed without the channel. */
  lemma MovedKeepsListsIff(before: Channels, lists: map<Id, seq<Id>>, c: Channel, after: Channels)
    requires Represents(before, lists) && c.id in before && before[c.id].id == c.id && LinkedAnew(before, c, after)
    ensures Consistent(after[c.id := c]) <==> CanFollow(ListOf(Taken(lists, before[c.id]), c.parent), c.order)
  {
    hide LinkedAnew, Represents, Taken, Put;
    if CanFollow(ListOf(Taken(lists, before[c.id]), c.parent), c.order) {
      LinkedAnewIsTakeAndPut(before, lists, c, after);
    }
    if Consistent(after[c.id := c]) && c.order != 0 {
      ConsistentNamesSiblings(after[c.id := c], c.id);
      LinkedAnewKeepsParents(before, c, after);
      assert c.order in after && after[c.order].parent == c.parent;
      SiblingIsListed(before, lists, c.id, c.order, c.parent);
    }
  }

  lemma ForeignIsNotLinked(channels: Channels, parent: Id, s: seq<Id>, j: nat)
    requires j < |s| && s[j] in channels && channels[s[j]].parent != parent
    ensures !Linked(channels, parent, s)
  {
  }

  lemma EditedIsMovedIff(before: Channels, lists: map<Id, seq<Id>>, c: Channel, after: Channels)
    requires Represents(before, lists) && c.id in before && LinkedAnew(before, c, after)
    requires CanFollow(ListOf(Taken(lists, before[c.id]), c.parent), c.order)
    ensures Represents(after, Put(Taken(lists, before[c.id]), c)) <==> c.parent == before[c.id].parent
  {
    hide LinkedAnew;
    LinkedAnewKeeps(before, c, after);
    LinkedAnewIsTakeAndPut(before, lists, c, after);
    if c.parent == before[c.id].parent {
      assert after[c.id := c] == after;
    } else {
      var put := Put(Taken(lists, before[c.id]), c);
      var s := ListOf(put, c.parent);
      var j := if c.order == 0 then 0 else IndexOf(ListOf(Taken(lists, before[c.id]), c.parent), c.order) + 1;
      assert s[j] == c.id;
      ForeignIsNotLinked(after, c.parent, s, j);
    }
  }

  lemma ParentLeadsBack(channels: Channels, id: Id, parent: Id)
    requires id in channels
    ensures LeadsBack(channels, channels[id := channels[id].(parent := parent)],
            [ParentChanged(id, channels[id].parent)])
  {
    var after := channels[id := channels[id].(parent := parent)];
    RevertOne(after, ParentChanged(id, channels[id].parent));
    assert after[id].(parent := channels[id].parent) == channels[id];
    assert after[id := channels[id]] == channels;
  }

  lemma PrefixOfMap(cs: seq<Channel>, i: nat)
    requires i < |cs|
    ensures MapOf(cs[..i + 1]) == MapOf(cs[..i])[cs[i].id := cs[i]]
  {
    assert cs[..i + 1][..i] == cs[..i];
  }

  /** With as many ids as channels, none is overwritten. */
  lemma {:induction false} PrefixIsSubmap(cs: seq<Channel>, i: nat)
    requires i <= |cs| && |MapOf(cs)| == |cs|
    ensures |MapOf(cs[..i])| == i && MapOf(cs[..i]).Items <= MapOf(cs).Items
    decreases |cs| - i
  {
    if i < |cs| {
      PrefixIsSubmap(cs, i + 1);
      PrefixOfMap(cs, i);
      Overwriting(MapOf(cs[..i]), cs[i]);
    } else {
      assert cs[..i] == cs;
    }
  }

  lemma Overwriting(m: Channels, c: Channel)
    ensures var n := m[c.id := c];
      if c.id in m then |n| == |m| else |n| == |m| + 1 && m.Items <= n.Items
  {
    var n := m[c.id := c];
    if c.id in m {
      assert n.Keys == m.Keys;
    } else {
      assert n.Keys == m.Keys + {c.id};
      assert forall k {:trigger m[k]} :: k in m ==> n[k] == m[k];
    }
  }

  /** Every entry finds its place taken by nobody, in whatever order they come. */
  lemma ListedInAnyOrder(cs: seq<Channel>, i: nat, between: Channels, events: seq<Event>)
    requires i < |cs| && Consistent(MapOf(cs)) && |MapOf(cs)| == |cs|
    requires Relinked(MapOf(cs[..i]), between, FollowsAt(cs[i].id, cs[i].order, cs[i].parent), cs[i].id, events)
    ensures between[cs[i].id := cs[i]] == MapOf(cs[..i + 1])
  {
    hide MapOf, Consistent;
    var all, m, n, c := MapOf(cs), MapOf(cs[..i]), MapOf(cs[..i + 1]), cs[i];
    PrefixIsSubmap(cs, i);
    PrefixIsSubmap(cs, i + 1);
    PrefixOfMap(cs, i);
    assert (c.id, c) in n.Items;
    if events != [] {
      var k := events[0].id;
      assert (k, m[k]) in m.Items;
      OnePerPlace(all, c.id, k);
    }
  }

  lemma NothingLeadsBack(channels: Channels, events: seq<Event>)
    ensures LeadsBack(channels, channels, events[|events|..])
  {
  }

  lemma DeletedLeadsBack(before: Channels, id: Id, after: Channels, a: seq<Event>)
    requires id in before && before[id].id == id
    requires Relinked(before - {id}, after, Follows(id), before[id].order, a)
    ensures LeadsBack(before, after, a + [Removed(before[id])])
  {
    var c, added := before[id], after[id := before[id]];
    RevertAllAppends(after, a, [Removed(c)]);
    RevertOne(after, Removed(c));
    if a == [] {
      assert added == before;
    } else {
      assert a == [a[0]];
      RevertOne(added, a[0]);
      var k := a[0].id;
      assert added[k := added[k].(order := a[0].order)] == before;
    }
  }
}
