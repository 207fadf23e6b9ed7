/** The module-level state of lib/player.js and the operations that change it. */
module Player {
  import opened Wrappers
  import opened Seqs
  import opened PlaylistStore
  import opened Scheduler
  import opened Persistence

  /** What `getPlaylist()` returns and `notifyPlaylist` broadcasts. */
  datatype PlaylistView = PlaylistView(playingContent: Option<Item>, playlistContents: seq<Item>)

  /** Commands sent to the media engine; they are recorded, not executed. */
  datatype EngineCommand = Load(path: Path) | Resume | TogglePause

  class PlayerState {
    /** The pending items (`contents`). */
    var contents: seq<Item>
    /** The rotation list of submitters (`users`). */
    var users: seq<User>
    /** The item being played, if any (`playingContent`). */
    var playingContent: Option<Item>
    /** Armed while end-of-file signals are to be ignored (`shoudCancelEOFReachedEvent`). */
    var cancelEofReachedEvent: bool
    /** Scheduled one-second timeouts that have not fired yet. */
    var pendingTimers: nat

    /** Records appended to the day's play log file. */
    ghost var playLog: seq<Record>
    /** Records appended to the day's report log file. */
    ghost var reportLog: seq<Record>
    /** Snapshots broadcast through `notifyPlaylist`. */
    ghost var notifications: seq<PlaylistView>
    /** Commands issued to the media engine. */
    ghost var engine: seq<EngineCommand>

    /** The submitters in rotation are distinct and include every pending item's
        submitter. Exactly one timeout is outstanding while the flag is armed and
        none otherwise, so no stale timeout can disarm a later arming; and the flag
        is only ever armed while an item is playing. */
    ghost predicate Valid()
      reads this
      ensures Valid() ==> pendingTimers <= 1 && (pendingTimers == 1 ==> playingContent.Some?)
    {
      && Distinct(users)
      && Covers(users, contents)
      && pendingTimers == (if cancelEofReachedEvent then 1 else 0)
      && (cancelEofReachedEvent ==> playingContent.Some?)
    }

    /** The state when the module is loaded. */
    constructor ()
      ensures Valid()
      ensures contents == [] && users == [] && playingContent == None
      ensures !cancelEofReachedEvent && pendingTimers == 0
      ensures playLog == [] && reportLog == [] && notifications == [] && engine == []
    {
      contents, users, playingContent := [], [], None;
      cancelEofReachedEvent, pendingTimers := false, 0;
      playLog, reportLog, notifications, engine := [], [], [], [];
    }

    /** `getPlaylist()`: the playing item and the pending list, as they are. */
    function GetPlaylist(): (v: PlaylistView)
      reads this
      ensures v.playingContent == playingContent && v.playlistContents == contents
    {
      PlaylistView(playingContent, contents)
    }

    /** `getPlayingContent()`. */
    function GetPlayingContent(): (c: Option<Item>)
      reads this
      ensures c == playingContent
    {
      playingContent
    }

    /** `addToPlaylist({ content, username })`: the tagged item goes to the tail; a
        never-seen submitter goes to the head of the rotation list. */
    method AddToPlaylist(content: Media, username: User)
      requires Valid()
      modifies this`contents, this`users
      ensures Valid()
      ensures contents == old(contents) + [Tag(content, username)]
      ensures users == AddUser(old(users), username)
      ensures old(users) <= users || users == [username] + old(users)
    {
      contents := contents + [Tag(content, username)];
      if username in users {
        return;
      }
      users := [username] + users;
    }

    /** `removeFromPlaylist(contentId)`. */
    method RemoveFromPlaylist(contentId: Id)
      requires Valid()
      modifies this`contents
      ensures Valid()
      ensures contents == RemoveId(old(contents), contentId)
    {
      contents := RemoveId(contents, contentId);
    }

    /** `sortUserPlaylist(contentIdsInNewOrder, username)`. */
    method SortUserPlaylist(contentIdsInNewOrder: seq<Id>, username: User)
      requires Valid()
      modifies this`contents
      ensures Valid()
      ensures contents == Reordered(old(contents), contentIdsInNewOrder, username)
    {
      ReorderedDrawsFromQueue(contents, contentIdsInNewOrder, username, users);
      contents := Reordered(contents, contentIdsInNewOrder, username);
    }

    /** `randomizeUserPlaylist(username)`; `rolls` are the shuffle's random draws. */
    method RandomizeUserPlaylist(username: User, rolls: seq<nat>)
      requires Valid()
      modifies this`contents
      ensures Valid()
      ensures contents == Randomized(old(contents), username, rolls)
    {
      ghost var contents0 := contents;
      contents := Randomized(contents, username, rolls);
      RandomizeKeepsCover(contents0, username, rolls, users);
    }

    /** `saveToM3uPlaylist(content)`: one record appended to the play log. */
    method SaveToM3uPlaylist(content: Item)
      modifies this`playLog
      ensures playLog == old(playLog) + [PlayRecord(content)]
    {
      playLog := playLog + [PlayRecord(content)];
    }

    /** `addToReportPlaylist({ comment, content, username })`. */
    method AddToReportPlaylist(comment: string, content: Media, username: User)
      modifies this`reportLog
      ensures reportLog == old(reportLog) + [ReportRecord(username, comment, content)]
    {
      reportLog := reportLog + [ReportRecord(username, comment, content)];
    }

    /** The `forEach` callback of `loadPlaylist`: enqueue the registry entry for the
        chunk's path, attributed to the comment with its first `#` removed. */
    method LoadChunk(chunk: Record, allContents: seq<Media>)
      requires Valid()
      modifies this`contents, this`users
      ensures Valid()
      ensures contents == old(contents) + Admit(allContents, chunk)
      ensures Admit(allContents, chunk) == [] ==> users == old(users)
      ensures Admit(allContents, chunk) != [] ==> users == AddUser(old(users), Admit(allContents, chunk)[0].username)
    {
      var content := Resolve(allContents, chunk.path);
      if content.None? {
        return;
      }
      AddToPlaylist(content.value, StripFirstHash(chunk.comment));
    }

    /** `loadPlaylist(filepath, allContents)`, given the file's lines: every chunk
        whose path is in the registry is enqueued, in file order. */
    method LoadPlaylist(lines: seq<string>, allContents: seq<Media>)
      requires Valid()
      modifies this`contents, this`users
      ensures Valid()
      ensures contents == old(contents) + Loaded(Pairs(lines), allContents)
      ensures users == EnrollAll(old(users), Loaded(Pairs(lines), allContents))
    {
      ghost var contents0, users0 := contents, users;
      ghost var loaded: seq<Item> := [];
      var chunks := Pairs(lines);
      var i := 0;
      while i < |chunks|
        invariant 0 <= i <= |chunks|
        invariant Valid()
        invariant loaded == Loaded(chunks[..i], allContents)
        invariant contents == contents0 + loaded
        invariant users == EnrollAll(users0, loaded)
      {
        ghost var admitted := Admit(allContents, chunks[i]);
        LoadedPrefixStep(chunks, i, allContents);
        EnrollAllStep(users0, loaded, admitted);
        LoadChunk(chunks[i], allContents);
        AppendAssociates(contents0, loaded, admitted);
        loaded := loaded + admitted;
        i := i + 1;
      }
      assert chunks[..i] == chunks;
    }

    /** `pause()`: toggles the engine's pause state; the queue is untouched. */
    method Pause()
      modifies this`engine
      ensures engine == old(engine) + [TogglePause]
    {
      engine := engine + [TogglePause];
    }

    /** The loop of `playNext` over a copy of `users`: look up the visited user's
        first pending item, rotate the list one step, stop at the first hit. */
    method WalkRotation() returns (content: Option<Item>)
      modifies this`users
      ensures content == Schedule(old(users), contents).item
      ensures users == Schedule(old(users), contents).rotation
    {
      var order := users;
      content := None;
      var i := 0;
      while i < |order|
        invariant 0 <= i <= |order|
        invariant users == Rotate(order, i)
        invariant content.None?
        invariant forall j :: 0 <= j < i ==> FindByUser(contents, order[j]).None?
      {
        content := FindByUser(contents, order[i]);
        RotateStep(order, i);
        users := users[1..] + [users[0]];
        i := i + 1;
        if content.Some? {
          break;
        }
      }
      if content.Some? {
        assert FirstServedFrom(order, contents, 0) == Some(i - 1);
      } else {
        RotateFullCycle(order);
        assert FirstServedFrom(order, contents, 0).None?;
      }
    }

    /** The selection part of `playNext`: walk the rotation list, then drop every
        pending item with the chosen item's identifier. */
    method TakeNext() returns (content: Option<Item>)
      requires Distinct(users) && Covers(users, contents)
      modifies this`users, this`contents
      ensures Distinct(users) && Covers(users, contents)
      ensures content == Schedule(old(users), old(contents)).item
      ensures users == Schedule(old(users), old(contents)).rotation
      ensures contents == Schedule(old(users), old(contents)).pending
    {
      ghost var users0, contents0 := users, contents;
      ScheduleOutcome(users, contents);
      content := WalkRotation();
      if content.Some? {
        contents := RemoveId(contents, content.value.id);
      }
      ScheduleKeepsInvariant(users0, contents0);
    }

    /** The tail of `playNext` once an item is chosen: log it, arm the flag, load
        and resume the item in the engine, and schedule the flag's timeout. */
    method StartPlayback(content: Item)
      requires Valid() && !cancelEofReachedEvent && playingContent.Some?
      modifies this`playLog, this`cancelEofReachedEvent, this`engine, this`pendingTimers
      ensures Valid()
      ensures playLog == old(playLog) + [PlayRecord(content)]
      ensures cancelEofReachedEvent && pendingTimers == 1
      ensures engine == old(engine) + [Load(content.path), Resume]
    {
      SaveToM3uPlaylist(content);
      cancelEofReachedEvent := true;
      engine := engine + [Load(content.path), Resume];
      pendingTimers := pendingTimers + 1;
    }

    /** `playNext()`: ignored while something plays; otherwise walks the rotation
        list, rotating it one step per visited user, and plays the first pending item
        of the first user who has one. */
    method PlayNext()
      requires Valid()
      modifies this`contents, this`users, this`playingContent, this`cancelEofReachedEvent
      modifies this`pendingTimers, this`playLog, this`notifications, this`engine
      ensures Valid()
      ensures old(playingContent).Some? ==> unchanged(this)
      ensures old(playingContent).None? ==>
                var t := Schedule(old(users), old(contents));
                && playingContent == t.item && users == t.rotation && contents == t.pending
                && notifications == old(notifications) + [PlaylistView(t.item, t.pending)]
      ensures old(playingContent).None? && Schedule(old(users), old(contents)).item.Some? ==>
                var it := Schedule(old(users), old(contents)).item.value;
                && playLog == old(playLog) + [PlayRecord(it)]
                && cancelEofReachedEvent && pendingTimers == 1
                && engine == old(engine) + [Load(it.path), Resume]
      ensures old(playingContent).None? && Schedule(old(users), old(contents)).item.None? ==>
                && playLog == old(playLog) && engine == old(engine)
                && !cancelEofReachedEvent && pendingTimers == 0
    {
      if playingContent.Some? {
        return;
      }
      var content := TakeNext();
      playingContent := content;
      notifications := notifications + [GetPlaylist()];
      if content.None? {
        return;
      }
      StartPlayback(content.value);
    }

    /** The `statuschange` handler: an end-of-file signal is ignored while the flag
        is armed; otherwise the playing item is cleared and the next one started. */
    method OnStatusChange(eofReached: bool)
      requires Valid()
      modifies this`contents, this`users, this`playingContent, this`cancelEofReachedEvent
      modifies this`pendingTimers, this`playLog, this`notifications, this`engine
      ensures Valid()
      ensures !eofReached || old(cancelEofReachedEvent) ==> unchanged(this)
      ensures eofReached && !old(cancelEofReachedEvent) ==>
                var t := Schedule(old(users), old(contents));
                && playingContent == t.item && users == t.rotation && contents == t.pending
                && notifications == old(notifications) + [PlaylistView(t.item, t.pending)]
                && (t.item.Some? ==> playLog == old(playLog) + [PlayRecord(t.item.value)]
                                     && cancelEofReachedEvent
                                     && engine == old(engine) + [Load(t.item.value.path), Resume])
                && (t.item.None? ==> playLog == old(playLog) && !cancelEofReachedEvent && engine == old(engine))
    {
      if eofReached {
        if cancelEofReachedEvent {
          return;
        }
        playingContent := None;
        PlayNext();
      }
    }

    /** The one-second timeout fires and disarms the flag, whichever `playNext`
        scheduled it. */
    method TimerExpired()
      requires Valid() && pendingTimers > 0
      modifies this`cancelEofReachedEvent, this`pendingTimers
      ensures Valid()
      ensures !cancelEofReachedEvent && pendingTimers == 0
    {
      cancelEofReachedEvent := false;
      pendingTimers := pendingTimers - 1;
    }
  }
}
