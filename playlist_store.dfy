/** The pending playlist of lib/player.js: the items, who submitted them, and the
    list edits `addToPlaylist`, `removeFromPlaylist`, `sortUserPlaylist` and
    `randomizeUserPlaylist` as functions on sequences. */
module PlaylistStore {
  import opened Wrappers
  import opened Seqs

  type Id = string
  type User = string
  type Path = string

  /** An entry of the content registry: what a client submits. Other metadata is
      opaque to the player and not modelled. */
  datatype Media = Media(id: Id, path: Path)

  /** A pending item: the submitted content with `username` set on it. */
  datatype Item = Item(id: Id, path: Path, username: User)

  /** `Object.assign({}, content, { username })`. */
  function Tag(m: Media, u: User): (r: Item)
    ensures r.id == m.id && r.path == m.path && r.username == u
  {
    Item(m.id, m.path, u)
  }

  function OwnedBy(u: User): Item -> bool
  {
    (it: Item) => it.username == u
  }

  function NotOwnedBy(u: User): Item -> bool
  {
    (it: Item) => it.username != u
  }

  function WithId(id: Id): Item -> bool
  {
    (it: Item) => it.id == id
  }

  function WithoutId(id: Id): Item -> bool
  {
    (it: Item) => it.id != id
  }

  /** Every pending item's submitter is in the rotation list. */
  predicate Covers(users: seq<User>, s: seq<Item>)
  {
    forall i :: 0 <= i < |s| ==> s[i].username in users
  }

  /** The rotation list after an item of `u` is enqueued: a never-seen name goes to
      the front (`users.unshift`), a known one changes nothing. */
  function AddUser(users: seq<User>, u: User): (r: seq<User>)
    ensures u in r
    ensures forall v :: v in r <==> v in users || v == u
    ensures Distinct(users) ==> Distinct(r)
    ensures u !in users ==> r[0] == u && r[1..] == users
  {
    if u in users then users else [u] + users
  }

  /** The rotation list after items are enqueued one by one, in order. */
  function EnrollAll(users: seq<User>, items: seq<Item>): (r: seq<User>)
    ensures Distinct(users) ==> Distinct(r)
    ensures forall v :: v in r <==> v in users || exists i :: 0 <= i < |items| && items[i].username == v
  {
    if items == [] then users
    else AddUser(EnrollAll(users, items[..|items| - 1]), items[|items| - 1].username)
  }

  /** Enrolling one more item enrolls its submitter. */
  lemma EnrollAllStep(users: seq<User>, items: seq<Item>, extra: seq<Item>)
    requires |extra| <= 1
    ensures EnrollAll(users, items + extra) == if extra == [] then EnrollAll(users, items) else AddUser(EnrollAll(users, items), extra[0].username)
  {
    if extra == [] {
      assert items + extra == items;
    } else {
      assert (items + extra)[..|items|] == items;
    }
  }

  /** `u`'s pending items, in list order. */
  function Owned(s: seq<Item>, u: User): (r: seq<Item>)
    ensures forall i :: 0 <= i < |r| ==> r[i] in s && r[i].username == u
    ensures forall i :: 0 <= i < |s| && s[i].username == u ==> s[i] in r
  {
    Filter(OwnedBy(u), s)
  }

  /** The pending items of everybody but `u`, in list order. */
  function Others(s: seq<Item>, u: User): (r: seq<Item>)
    ensures forall i :: 0 <= i < |r| ==> r[i] in s && r[i].username != u
    ensures forall i :: 0 <= i < |s| && s[i].username != u ==> s[i] in r
  {
    Filter(NotOwnedBy(u), s)
  }

  /** `contents.filter(({ id }) => contentId !== id)`: removal by identifier. */
  function RemoveId(s: seq<Item>, id: Id): (r: seq<Item>)
    ensures forall i :: 0 <= i < |r| ==> r[i] in s && r[i].id != id
    ensures forall i :: 0 <= i < |s| && s[i].id != id ==> s[i] in r
  {
    Filter(WithoutId(id), s)
  }

  /** Removal drops exactly the items carrying `id`, duplicates included: what is
      kept and what is dropped together make up the old list. */
  lemma RemoveIdDropsExactly(s: seq<Item>, id: Id)
    ensures multiset(RemoveId(s, id)) + multiset(Filter(WithId(id), s)) == multiset(s)
    ensures forall i :: 0 <= i < |Filter(WithId(id), s)| ==> Filter(WithId(id), s)[i].id == id
  {
    FilterPartition(WithoutId(id), WithId(id), s);
  }

  /** Removing an identifier that is not pending leaves the list as it was. */
  lemma RemoveAbsentId(s: seq<Item>, id: Id)
    requires forall i :: 0 <= i < |s| ==> s[i].id != id
    ensures RemoveId(s, id) == s
  {
    FilterKeepsAll(WithoutId(id), s);
  }

  /** Removal keeps the survivors' order: it distributes over any split of the list. */
  lemma RemoveIdKeepsOrder(a: seq<Item>, b: seq<Item>, id: Id)
    ensures RemoveId(a + b, id) == RemoveId(a, id) + RemoveId(b, id)
  {
    FilterAppend(WithoutId(id), a, b);
  }

  /** `contents.find(content => content.id === id)` over the whole list. Like
      `Scheduler.FindByUser` and `Persistence.Resolve`, this search is written out
      for its own key rather than as one search taking a predicate: a search over
      a function argument makes every proof that uses it much costlier to check. */
  function FindById(s: seq<Item>, id: Id): (r: Option<Item>)
    ensures r.Some? ==> r.value in s && r.value.id == id
    ensures r.None? <==> forall j :: 0 <= j < |s| ==> s[j].id != id
  {
    if s == [] then None
    else if s[0].id == id then Some(s[0])
    else FindById(s[1..], id)
  }

  /** The item found is the first one carrying the identifier, so when an
      identifier is pending twice the later item is never looked up. */
  lemma {:induction false} FindByIdIsFirst(s: seq<Item>, id: Id)
    requires FindById(s, id).Some?
    ensures exists i :: 0 <= i < |s| && s[i] == FindById(s, id).value && forall j :: 0 <= j < i ==> s[j].id != id
    decreases |s|
  {
    if s[0].id != id {
      FindByIdIsFirst(s[1..], id);
      var i :| 0 <= i < |s[1..]| && s[1..][i] == FindById(s, id).value
               && forall j :: 0 <= j < i ==> s[1..][j].id != id;
      assert s[i + 1] == FindById(s, id).value;
    }
  }

  /** The item found for one listed identifier, as a list of zero or one item. */
  function Lookup(s: seq<Item>, id: Id): (r: seq<Item>)
    ensures |r| <= 1
    ensures r == [] <==> FindById(s, id).None?
  {
    match FindById(s, id)
    case None => []
    case Some(it) => [it]
  }

  /** `contentIdsInNewOrder.map(find).filter(a => a)`: the item found for each
      listed identifier, in the listed order, stale identifiers dropped. */
  function FoundInOrder(s: seq<Item>, ids: seq<Id>): (r: seq<Item>)
    ensures |r| <= |ids|
    ensures forall i :: 0 <= i < |r| ==> r[i] in s
  {
    if ids == [] then [] else Lookup(s, ids[0]) + FoundInOrder(s, ids[1..])
  }

  lemma {:induction false} FoundInOrderAppend(s: seq<Item>, a: seq<Id>, b: seq<Id>)
    ensures FoundInOrder(s, a + b) == FoundInOrder(s, a) + FoundInOrder(s, b)
  {
    if a == [] {
      assert a + b == b;
    } else {
      var ab := a + b;
      assert ab[0] == a[0];
      assert ab[1..] == a[1..] + b;
      FoundInOrderAppend(s, a[1..], b);
      AppendAssociates(Lookup(s, a[0]), FoundInOrder(s, a[1..]), FoundInOrder(s, b));
    }
  }

  /** When every listed identifier is pending, the reordered block holds exactly one
      item per identifier, the first pending item with it, in the listed order. */
  lemma {:induction false} FoundInOrderAllFound(s: seq<Item>, ids: seq<Id>)
    requires forall k :: 0 <= k < |ids| ==> FindById(s, ids[k]).Some?
    ensures |FoundInOrder(s, ids)| == |ids|
    ensures forall k :: 0 <= k < |ids| ==> FoundInOrder(s, ids)[k] == FindById(s, ids[k]).value
  {
    if ids != [] {
      var rest := FoundInOrder(s, ids[1..]);
      FoundInOrderAllFound(s, ids[1..]);
      assert FoundInOrder(s, ids) == [FindById(s, ids[0]).value] + rest;
      forall k | 1 <= k < |ids|
        ensures FoundInOrder(s, ids)[k] == FindById(s, ids[k]).value
      {
        assert ids[1..][k - 1] == ids[k];
      }
    }
  }

  /** Whatever a listed identifier finds ends up in the reordered block. */
  lemma {:induction false} FoundInOrderHasFound(s: seq<Item>, ids: seq<Id>, k: nat)
    requires k < |ids| && FindById(s, ids[k]).Some?
    ensures FindById(s, ids[k]).value in FoundInOrder(s, ids)
  {
    assert FoundInOrder(s, ids) == Lookup(s, ids[0]) + FoundInOrder(s, ids[1..]);
    if k > 0 {
      assert ids[1..][k - 1] == ids[k];
      FoundInOrderHasFound(s, ids[1..], k - 1);
    }
  }

  /** An identifier that is no longer pending is silently dropped from the new order. */
  lemma FoundInOrderSkipsStale(s: seq<Item>, a: seq<Id>, id: Id, b: seq<Id>)
    requires FindById(s, id).None?
    ensures FoundInOrder(s, a + [id] + b) == FoundInOrder(s, a + b)
  {
    var one := [id];
    assert FoundInOrder(s, one) == [] by {
      assert one[0] == id;
      assert one[1..] == [];
    }
    FoundInOrderAppend(s, a + one, b);
    FoundInOrderAppend(s, a, one);
    FoundInOrderAppend(s, a, b);
    assert FoundInOrder(s, a) + FoundInOrder(s, one) == FoundInOrder(s, a);
  }

  /** `sortUserPlaylist(ids, u)`: everybody else's items in their old order,
      then the items looked up by the listed identifiers. */
  function Reordered(s: seq<Item>, ids: seq<Id>, u: User): (r: seq<Item>)
    ensures |r| <= |s| + |ids|
    ensures forall i :: 0 <= i < |r| ==> r[i] in s
  {
    Others(s, u) + FoundInOrder(s, ids)
  }

  /** Reordering puts the other users' items first, in their old order, and keeps
      every submitter in rotation. */
  lemma ReorderedDrawsFromQueue(s: seq<Item>, ids: seq<Id>, u: User, users: seq<User>)
    ensures Reordered(s, ids, u)[..|Others(s, u)|] == Others(s, u)
    ensures Covers(users, s) ==> Covers(users, Reordered(s, ids, u))
  {
  }

  /** The full-replace rule: when every listed identifier names one of `u`'s items,
      `u`'s block becomes exactly the listed items, in the listed order (items of `u`
      left out are gone), and nobody else's items move. */
  lemma {:induction false} ReorderReplacesBlock(s: seq<Item>, ids: seq<Id>, u: User)
    requires forall k :: 0 <= k < |ids| ==> FindById(s, ids[k]).Some? && FindById(s, ids[k]).value.username == u
    ensures Owned(Reordered(s, ids, u), u) == FoundInOrder(s, ids)
    ensures Others(Reordered(s, ids, u), u) == Others(s, u)
    ensures |Reordered(s, ids, u)| == |Others(s, u)| + |ids|
  {
    var others, found := Others(s, u), FoundInOrder(s, ids);
    FoundInOrderAllFound(s, ids);
    FilterAppend(OwnedBy(u), others, found);
    FilterAppend(NotOwnedBy(u), others, found);
    FilterDropsAll(OwnedBy(u), others);
    FilterKeepsAll(OwnedBy(u), found);
    FilterKeepsAll(NotOwnedBy(u), others);
    FilterDropsAll(NotOwnedBy(u), found);
  }

  /** The lookup is not restricted to `u`: listing another user's identifier
      copies that user's item into `u`'s block while the item also stays among
      the others' items, so it is pending once more than before. */
  lemma ReorderDuplicatesForeign(s: seq<Item>, ids: seq<Id>, u: User, k: nat)
    requires k < |ids| && FindById(s, ids[k]).Some? && FindById(s, ids[k]).value.username != u
    ensures var it := FindById(s, ids[k]).value;
            multiset(Reordered(s, ids, u))[it] >= multiset(s)[it] + 1
  {
    var it := FindById(s, ids[k]).value;
    FoundInOrderHasFound(s, ids, k);
    FilterPartition(NotOwnedBy(u), OwnedBy(u), s);
    assert it !in Owned(s, u);
  }

  /** A concrete case: ann lists bob's identifier and bob's item is pending twice. */
  lemma ReorderDuplicatesForeignItem()
    ensures var mine, theirs := Item("1", "a.mp4", "ann"), Item("2", "b.mp4", "bob");
            Reordered([mine, theirs], ["2"], "ann") == [theirs, theirs]
  {
    var mine, theirs := Item("1", "a.mp4", "ann"), Item("2", "b.mp4", "bob");
    var s := [mine, theirs];
    assert s[1..] == [theirs] && s[1..][1..] == [];
    assert theirs.username != "ann" by {
      assert theirs.username[0] != "ann"[0];
    }
    assert Filter(NotOwnedBy("ann"), s[1..]) == [theirs];
    assert Others(s, "ann") == [theirs];
    assert FindById(s, "2") == Some(theirs) by {
      assert mine.id[0] != "2"[0];
    }
    assert FoundInOrder(s, ["2"]) == [theirs] by {
      assert ["2"][1..] == [];
    }
  }

  /** lodash's `shuffle` (Fisher-Yates): position after position, the element at a
      randomly drawn later position is swapped in. `rolls` holds the random draws;
      draws that are missing leave the rest in place. */
  function Shuffle<T>(s: seq<T>, rolls: seq<nat>): (r: seq<T>)
    ensures multiset(r) == multiset(s)
    decreases |s|
  {
    if s == [] then []
    else
      var j := if rolls == [] then 0 else rolls[0] % |s|;
      var swapped := s[j := s[0]];
      SwapOut(s, j);
      [s[j]] + Shuffle(swapped[1..], if rolls == [] then [] else rolls[1..])
  }

  /** Moving the first element into slot `j` and taking `s[j]` out keeps the multiset. */
  lemma SwapOut<T>(s: seq<T>, j: nat)
    requires j < |s|
    ensures multiset(s[j := s[0]][1..]) + multiset{s[j]} == multiset(s)
  {
    var swapped := s[j := s[0]];
    assert swapped == [s[0]] + swapped[1..];
    assert s == [s[0]] + s[1..];
    if j > 0 {
      assert swapped[1..] == s[1..][j - 1 := s[0]];
      assert s[j] in multiset(s[1..]);
      assert multiset(swapped[1..]) == multiset(s[1..]) - multiset{s[j]} + multiset{s[0]};
    }
  }

  /** `randomizeUserPlaylist(u)`: everybody else's items, then `u`'s items shuffled. */
  function Randomized(s: seq<Item>, u: User, rolls: seq<nat>): (r: seq<Item>)
    ensures |r| >= |Others(s, u)| && r[..|Others(s, u)|] == Others(s, u)
    ensures multiset(r[|Others(s, u)|..]) == multiset(Owned(s, u))
  {
    Others(s, u) + Shuffle(Owned(s, u), rolls)
  }

  /** Shuffling is contained: other users keep their items and order, `u` keeps
      exactly the same items (now at the end), and nothing is gained or lost. */
  lemma RandomizeContainment(s: seq<Item>, u: User, rolls: seq<nat>)
    ensures Others(Randomized(s, u, rolls), u) == Others(s, u)
    ensures multiset(Owned(Randomized(s, u, rolls), u)) == multiset(Owned(s, u))
    ensures multiset(Randomized(s, u, rolls)) == multiset(s)
    ensures forall k :: |Others(s, u)| <= k < |Randomized(s, u, rolls)| ==> Randomized(s, u, rolls)[k].username == u
  {
    var others, shuffled := Others(s, u), Shuffle(Owned(s, u), rolls);
    forall k | 0 <= k < |shuffled|
      ensures shuffled[k].username == u
    {
      assert shuffled[k] in multiset(shuffled);
    }
    FilterAppend(OwnedBy(u), others, shuffled);
    FilterAppend(NotOwnedBy(u), others, shuffled);
    FilterDropsAll(OwnedBy(u), others);
    FilterKeepsAll(OwnedBy(u), shuffled);
    FilterKeepsAll(NotOwnedBy(u), others);
    FilterDropsAll(NotOwnedBy(u), shuffled);
    FilterPartition(NotOwnedBy(u), OwnedBy(u), s);
  }

  /** Shuffling keeps the store invariant: every submitter is still in rotation. */
  lemma RandomizeKeepsCover(s: seq<Item>, u: User, rolls: seq<nat>, users: seq<User>)
    requires Covers(users, s)
    ensures Covers(users, Randomized(s, u, rolls))
  {
    var r := Randomized(s, u, rolls);
    RandomizeContainment(s, u, rolls);
    forall i | 0 <= i < |r|
      ensures r[i].username in users
    {
      assert r[i] in multiset(s);
    }
  }
}
