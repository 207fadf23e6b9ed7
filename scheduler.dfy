/** The round-robin choice that `playNext` in lib/player.js makes: walk the rotation
    list from its head, take the first pending item of the first user who has one,
    and rotate the list one step per user visited. */
module Scheduler {
  import opened Wrappers
  import opened Seqs
  import opened PlaylistStore

  /** `k` rounds of `users.push(users.shift())`. */
  function Rotate<T>(s: seq<T>, k: nat): (r: seq<T>)
    requires k <= |s|
    ensures |r| == |s|
    ensures forall i :: 0 <= i < |s| - k ==> r[i] == s[k + i]
    ensures forall i :: |s| - k <= i < |s| ==> r[i] == s[i - (|s| - k)]
  {
    s[k..] + s[..k]
  }

  /** A rotation only moves names around: same multiset, still duplicate-free. */
  lemma RotatePermutes<T(!new)>(s: seq<T>, k: nat)
    requires k <= |s|
    ensures multiset(Rotate(s, k)) == multiset(s)
    ensures Distinct(s) ==> Distinct(Rotate(s, k))
  {
    assert s == s[..k] + s[k..];
  }

  /** Rotating a full cycle gives the list back. */
  lemma RotateFullCycle<T>(s: seq<T>)
    ensures Rotate(s, |s|) == s
  {
  }

  /** One more `users.push(users.shift())` after `k` of them. */
  lemma RotateStep<T>(s: seq<T>, k: nat)
    requires k < |s|
    ensures Rotate(s, k)[1..] + [Rotate(s, k)[0]] == Rotate(s, k + 1)
  {
  }

  /** `contents.find(({ username }) => username === name)`. */
  function FindByUser(s: seq<Item>, u: User): (r: Option<Item>)
    ensures r.Some? ==> r.value in s && r.value.username == u
    ensures r.None? <==> forall j :: 0 <= j < |s| ==> s[j].username != u
  {
    if s == [] then None
    else if s[0].username == u then Some(s[0])
    else FindByUser(s[1..], u)
  }

  /** The item found is the user's oldest: no item of theirs comes before it. */
  lemma {:induction false} FindByUserIsOldest(s: seq<Item>, u: User)
    requires FindByUser(s, u).Some?
    ensures exists i :: 0 <= i < |s| && s[i] == FindByUser(s, u).value && forall j :: 0 <= j < i ==> s[j].username != u
    decreases |s|
  {
    if s[0].username != u {
      FindByUserIsOldest(s[1..], u);
      var i :| 0 <= i < |s[1..]| && s[1..][i] == FindByUser(s, u).value
               && forall j :: 0 <= j < i ==> s[1..][j].username != u;
      assert s[i + 1] == FindByUser(s, u).value;
    }
  }

  /** The index of the first user of `users[i..]` who has a pending item in
      `contents`, as the loop of `playNext` meets them. */
  function FirstServedFrom(users: seq<User>, contents: seq<Item>, i: nat): (r: Option<nat>)
    requires i <= |users|
    ensures r.Some? ==> i <= r.value < |users| && FindByUser(contents, users[r.value]).Some?
    ensures r.Some? ==> forall j :: i <= j < r.value ==> FindByUser(contents, users[j]).None?
    ensures r.None? <==> forall j :: i <= j < |users| ==> FindByUser(contents, users[j]).None?
    decreases |users| - i
  {
    if i == |users| then None
    else if FindByUser(contents, users[i]).Some? then Some(i)
    else FirstServedFrom(users, contents, i + 1)
  }

  /** What one scheduling decision produces: the item to play (if any), the new
      rotation list and the pending list. */
  datatype Turn = Turn(item: Option<Item>, rotation: seq<User>, pending: seq<Item>)

  /** The decision `playNext` makes when nothing is playing. */
  function Schedule(users: seq<User>, contents: seq<Item>): (r: Turn)
    ensures r.item.None? ==> r == Turn(None, users, contents)
    ensures r.item.Some? ==> r.item.value in contents && r.item.value.username in users
    ensures |r.rotation| == |users|
  {
    match FirstServedFrom(users, contents, 0)
    case None => Turn(None, users, contents)
    case Some(k) =>
      var it := FindByUser(contents, users[k]).value;
      Turn(Some(it), Rotate(users, k + 1), RemoveId(contents, it.id))
  }

  /** The pending list after a decision: the played item's identifier is gone;
      with nothing to play, the whole state is kept. */
  lemma ScheduleOutcome(users: seq<User>, contents: seq<Item>)
    ensures var t := Schedule(users, contents);
            t.item.Some? ==> t.pending == RemoveId(contents, t.item.value.id)
    ensures var t := Schedule(users, contents);
            t.item.None? ==> t.rotation == users && t.pending == contents
  {
  }

  /** Fair choice: the item played is the oldest pending item of the earliest user
      in rotation order who has one; every user before that one had nothing; the
      rotation moves that user to the tail, and every item with the played item's
      identifier leaves the pending list. */
  lemma ScheduleServesEarliest(users: seq<User>, contents: seq<Item>)
    requires Schedule(users, contents).item.Some?
    ensures var t := Schedule(users, contents);
            var it := t.item.value;
            exists k :: 0 <= k < |users|
              && users[k] == it.username
              && (forall j :: 0 <= j < k ==> forall i :: 0 <= i < |contents| ==> contents[i].username != users[j])
              && t.rotation == Rotate(users, k + 1)
              && t.rotation[|users| - 1] == it.username
    ensures var t := Schedule(users, contents);
            var it := t.item.value;
            exists i :: 0 <= i < |contents| && contents[i] == it
              && forall j :: 0 <= j < i ==> contents[j].username != it.username
    ensures var t := Schedule(users, contents);
            t.pending == RemoveId(contents, t.item.value.id)
  {
    var k := FirstServedFrom(users, contents, 0).value;
    FindByUserIsOldest(contents, users[k]);
    forall j | 0 <= j < k
      ensures forall i :: 0 <= i < |contents| ==> contents[i].username != users[j]
    {
      assert FindByUser(contents, users[j]).None?;
    }
  }

  /** When nobody has a pending item the turn is empty and the state is unchanged. */
  lemma ScheduleIdleKeepsState(users: seq<User>, contents: seq<Item>)
    requires forall j :: 0 <= j < |users| ==> FindByUser(contents, users[j]).None?
    ensures Schedule(users, contents) == Turn(None, users, contents)
  {
  }

  /** Under the store invariant (every pending item's submitter is in rotation),
      nothing is selected exactly when nothing is pending. */
  lemma ScheduleIdleIffEmpty(users: seq<User>, contents: seq<Item>)
    requires Covers(users, contents)
    ensures Schedule(users, contents).item.None? <==> contents == []
  {
    if contents != [] {
      var u := contents[0].username;
      var k :| 0 <= k < |users| && users[k] == u;
      assert FindByUser(contents, users[k]).Some?;
    }
  }

  /** A scheduling decision keeps the store invariant: the rotation list is a
      duplicate-free permutation of the old one and still covers every pending item. */
  lemma ScheduleKeepsInvariant(users: seq<User>, contents: seq<Item>)
    requires Distinct(users) && Covers(users, contents)
    ensures var t := Schedule(users, contents);
            multiset(t.rotation) == multiset(users) && Distinct(t.rotation) && Covers(t.rotation, t.pending)
  {
    var t := Schedule(users, contents);
    match FirstServedFrom(users, contents, 0)
    case None =>
    case Some(k) =>
      RotatePermutes(users, k + 1);
      forall i | 0 <= i < |t.pending|
        ensures t.pending[i].username in t.rotation
      {
        assert t.pending[i] in contents;
        assert t.pending[i].username in multiset(users);
      }
  }

  /** The rotation index of the user a decision serves. */
  lemma ServedIndex(users: seq<User>, contents: seq<Item>) returns (k: nat)
    requires Schedule(users, contents).item.Some?
    ensures k < |users| && users[k] == Schedule(users, contents).item.value.username
    ensures Schedule(users, contents).rotation == Rotate(users, k + 1)
    ensures forall j :: 0 <= j < k ==> FindByUser(contents, users[j]).None?
  {
    k := FirstServedFrom(users, contents, 0).value;
  }

  /** No second turn while others wait: with a duplicate-free rotation, if two
      consecutive decisions both serve the same user, then after the first one no
      other user had anything pending. */
  lemma NoSecondTurnWhileOthersWait(users: seq<User>, contents: seq<Item>)
    requires Distinct(users)
    requires Schedule(users, contents).item.Some?
    requires var t := Schedule(users, contents);
             var t' := Schedule(t.rotation, t.pending);
             t'.item.Some? && t'.item.value.username == t.item.value.username
    ensures var t := Schedule(users, contents);
            forall v :: v in users && v != t.item.value.username ==>
              forall i :: 0 <= i < |t.pending| ==> t.pending[i].username != v
  {
    var t := Schedule(users, contents);
    var u := t.item.value.username;
    var k := ServedIndex(users, contents);
    RotatePermutes(users, k + 1);
    var r := t.rotation;
    var k' := ServedIndex(r, t.pending);
    assert r[|r| - 1] == users[k];
    DistinctIndex(r, k', |r| - 1);
    forall v | v in users && v != u
      ensures forall i :: 0 <= i < |t.pending| ==> t.pending[i].username != v
    {
      assert v in multiset(r);
      var j :| 0 <= j < |r| && r[j] == v;
      assert FindByUser(t.pending, r[j]).None?;
    }
  }

  /** After a rotation by `k2 + 1`, a name behind the old tail (now at `k3`) is
      one that stood at or before index `k2`. */
  lemma BehindOldTail(r1: seq<User>, k2: nat, k3: nat, j: nat)
    requires Distinct(r1) && k2 < |r1| && k3 < j < |r1| && Rotate(r1, k2 + 1)[k3] == r1[|r1| - 1]
    ensures 0 <= j - (|r1| - k2 - 1) <= k2 && Rotate(r1, k2 + 1)[j] == r1[j - (|r1| - k2 - 1)]
  {
    var n, r2 := |r1|, Rotate(r1, k2 + 1);
    RotatePermutes(r1, k2 + 1);
    var p := if k2 < n - 1 then n - 2 - k2 else n - 1;
    assert r2[p] == r1[n - 1];
    DistinctIndex(r2, k3, p);
  }

  /** The core of `NoReturnWhileOthersWait`, on the two rotation lists: whoever
      stands behind the old tail after the second rotation stood before the
      second served user and so had nothing pending already. */
  lemma WaitersServedBetween(r1: seq<User>, p1: seq<Item>, k2: nat, r2: seq<User>, p2: seq<Item>, k3: nat)
    requires Distinct(r1) && k2 < |r1| && r2 == Rotate(r1, k2 + 1) && k3 < |r2| && r2[k3] == r1[|r1| - 1]
    requires forall j :: 0 <= j < k2 ==> FindByUser(p1, r1[j]).None?
    requires forall j :: 0 <= j < k3 ==> FindByUser(p2, r2[j]).None?
    requires forall i :: 0 <= i < |p2| ==> p2[i] in p1
    ensures forall w :: w in r1 && w != r1[|r1| - 1] && w != r1[k2] ==>
              forall i :: 0 <= i < |p2| ==> p2[i].username != w
  {
    RotatePermutes(r1, k2 + 1);
    forall w | w in r1 && w != r1[|r1| - 1] && w != r1[k2]
      ensures forall i :: 0 <= i < |p2| ==> p2[i].username != w
    {
      assert w in multiset(r2);
      var j :| 0 <= j < |r2| && r2[j] == w;
      if j < k3 {
        assert FindByUser(p2, r2[j]).None?;
      } else {
        assert j != k3;
        BehindOldTail(r1, k2, k3, j);
        var m := j - (|r1| - k2 - 1);
        assert m != k2;
        assert FindByUser(p1, r1[m]).None?;
        forall i | 0 <= i < |p2|
          ensures p2[i].username != w
        {
          assert p2[i] in p1;
        }
      }
    }
  }

  /** No return while others wait: if three consecutive decisions serve `u`, then
      `v`, then `u` again, then just before the third decision nobody but `u` and
      `v` had anything pending. Whoever still waited then would have been met
      before `u`, who went to the tail when first served. */
  lemma NoReturnWhileOthersWait(users: seq<User>, contents: seq<Item>, t1: Turn, t2: Turn, t3: Turn)
    requires Distinct(users)
    requires t1 == Schedule(users, contents) && t1.item.Some?
    requires t2 == Schedule(t1.rotation, t1.pending) && t2.item.Some?
    requires t3 == Schedule(t2.rotation, t2.pending) && t3.item.Some?
    requires t3.item.value.username == t1.item.value.username
    ensures forall w :: w in users && w != t1.item.value.username && w != t2.item.value.username ==>
              forall i :: 0 <= i < |t2.pending| ==> t2.pending[i].username != w
  {
    var k1 := ServedIndex(users, contents);
    RotatePermutes(users, k1 + 1);
    var r1 := t1.rotation;
    var k2 := ServedIndex(r1, t1.pending);
    var k3 := ServedIndex(t2.rotation, t2.pending);
    ScheduleOutcome(r1, t1.pending);
    WaitersServedBetween(r1, t1.pending, k2, t2.rotation, t2.pending, k3);
    forall w | w in users
      ensures w in r1
    {
      assert w in multiset(r1);
    }
  }

  /** No starvation: a user with a pending item who is not served this turn moves
      strictly closer to the head of the rotation list. */
  lemma WaitingUserAdvances(users: seq<User>, contents: seq<Item>, i: nat)
    requires i < |users|
    requires exists j :: 0 <= j < |contents| && contents[j].username == users[i]
    requires Schedule(users, contents).item.None? || Schedule(users, contents).item.value.username != users[i]
    ensures Schedule(users, contents).item.Some?
    ensures exists i' :: 0 <= i' < i && Schedule(users, contents).rotation[i'] == users[i]
  {
    assert FindByUser(contents, users[i]).Some?;
    var k := FirstServedFrom(users, contents, 0).value;
    assert k != i;
    var r := Schedule(users, contents).rotation;
    assert r[i - k - 1] == users[i];
  }

  /** A submitter seen for the first time is served at the very next decision
      (it was put at the head of the rotation list). */
  lemma NewcomerServedNext(users: seq<User>, contents: seq<Item>, m: Media, u: User)
    requires Covers(users, contents) && u !in users
    ensures Schedule(AddUser(users, u), contents + [Tag(m, u)]).item == Some(Tag(m, u))
  {
    var s := contents + [Tag(m, u)];
    assert s[|contents|] == Tag(m, u);
    assert FindByUser(s, u).Some?;
    assert AddUser(users, u)[0] == u;
    assert FindByUser(s, u) == Some(Tag(m, u));
  }

  /** When the head of the rotation list has a pending item, that user's oldest
      item is played and the user moves to the tail. */
  lemma ServeHead(users: seq<User>, contents: seq<Item>)
    requires users != [] && FindByUser(contents, users[0]).Some?
    ensures var it := FindByUser(contents, users[0]).value;
            Schedule(users, contents) == Turn(Some(it), users[1..] + [users[0]], RemoveId(contents, it.id))
  {
    assert FirstServedFrom(users, contents, 0) == Some(0);
  }

  /** Ann's first item, queued before anything else, is played first. */
  lemma FirstTurn(a1: Item, a2: Item, b1: Item)
    requires a1 == Item("1", "a.mp4", "ann") && a2 == Item("2", "b.mp4", "ann") && b1 == Item("3", "c.mp4", "bob")
    ensures Schedule(["ann", "bob"], [a1, a2, b1]) == Turn(Some(a1), ["bob", "ann"], [a2, b1])
  {
    var s := [a1, a2, b1];
    assert FindByUser(s, "ann") == Some(a1);
    ServeHead(["ann", "bob"], s);
    assert "1" != "2" && "1" != "3" by {
      assert "1"[0] != "2"[0] && "1"[0] != "3"[0];
    }
    assert s == [a1] + [a2, b1];
    RemoveIdKeepsOrder([a1], [a2, b1], "1");
    FilterDropsAll(WithoutId("1"), [a1]);
    RemoveAbsentId([a2, b1], "1");
  }

  /** Bob, now at the head, is served before ann's second item. */
  lemma SecondTurn(a2: Item, b1: Item)
    requires a2 == Item("2", "b.mp4", "ann") && b1 == Item("3", "c.mp4", "bob")
    ensures Schedule(["bob", "ann"], [a2, b1]) == Turn(Some(b1), ["ann", "bob"], [a2])
  {
    var s := [a2, b1];
    assert "ann" != "bob" by {
      assert "ann"[0] != "bob"[0];
    }
    assert s[1..] == [b1];
    assert FindByUser(s, "bob") == Some(b1);
    ServeHead(["bob", "ann"], s);
    assert "2" != "3" by {
      assert "2"[0] != "3"[0];
    }
    assert s == [a2] + [b1];
    RemoveIdKeepsOrder([a2], [b1], "3");
    RemoveAbsentId([a2], "3");
    FilterDropsAll(WithoutId("3"), [b1]);
  }

  /** Round robin in action: ann queued two items before bob queued one, yet bob's
      item is played between hers. */
  lemma TwoUsersAlternate()
    ensures var a1, a2, b1 := Item("1", "a.mp4", "ann"), Item("2", "b.mp4", "ann"), Item("3", "c.mp4", "bob");
            var t1 := Schedule(["ann", "bob"], [a1, a2, b1]);
            var t2 := Schedule(t1.rotation, t1.pending);
            var t3 := Schedule(t2.rotation, t2.pending);
            t1.item == Some(a1) && t2.item == Some(b1) && t3.item == Some(a2) && t3.pending == []
  {
    var a1, a2, b1 := Item("1", "a.mp4", "ann"), Item("2", "b.mp4", "ann"), Item("3", "c.mp4", "bob");
    FirstTurn(a1, a2, b1);
    SecondTurn(a2, b1);
    assert FindByUser([a2], "ann") == Some(a2);
    ServeHead(["ann", "bob"], [a2]);
    FilterDropsAll(WithoutId("2"), [a2]);
  }
}
