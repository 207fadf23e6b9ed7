# karakuri player core, modelled in Dafny

This project models `lib/player.js` of karakuri, a shared media player that
plays the submissions of several users in fair rotation. The module keeps four
pieces of state:

- the pending list `contents`, holding items with an `id`, a `path` and the submitting `username`;
- the rotation list `users`;
- the item being played, `playingContent`;
- the flag `shoudCancelEOFReachedEvent`, which suppresses the duplicate end-of-file signals the media engine sends right after a new file starts.

In the model these are the fields of one class, `Player.PlayerState`, with a
method per operation of the module. The list edits, the round-robin choice and
the log format are stated as functions on values, with lemmas.

Modules, one file each:

- `wrappers.dfy`: `Option` and `Result`.
- `seqs.dfy`: `Filter` (JavaScript's `Array.prototype.filter`) and its algebra; duplicate-freedom (`Distinct`).
- `playlist_store.dfy`: items and the list edits of `addToPlaylist`, `removeFromPlaylist`, `sortUserPlaylist` and `randomizeUserPlaylist`, as functions on sequences.
- `scheduler.dfy`: the choice `playNext` makes (`Schedule`), the rotation, and the fairness lemmas.
- `persistence.dfy`: the play and report logs, the line parser of `loadPlaylist`, and the name search of `createNewPlaylistFile`.
- `player.dfy`: the state class and its methods.

The class invariant `Valid()` holds after every method. It says:

- no name is twice in `users`;
- every pending item's submitter is in `users`;
- exactly one one-second timeout is outstanding while the flag is armed, and none otherwise;
- the flag is only armed while something is playing.

So a timeout scheduled by an earlier `playNext` can never disarm the flag of a later one.

The source differs from a natural reading of what the player should do in two places. The model follows the source in both:

- `randomizeUserPlaylist` moves the user's shuffled block to the end of the queue. It does not leave the block where it was (`RandomizeContainment`).
- `sortUserPlaylist` looks each listed identifier up in the whole queue, not only among that user's items. An identifier of another user's item therefore copies that item into the user's block (`ReorderDuplicatesForeign`). Because `find` returns the first match, an identifier pending twice always finds the earlier item (`FindByIdIsFirst`). Items of the user that are not listed are lost (`ReorderReplacesBlock`).

## Model

| member | source | states |
|---|---|---|
| Player.PlayerState.Valid | lib/player.js:13-17 | the module's invariant: no name twice in `users`, every pending item's submitter in `users`, one outstanding timeout exactly while the flag is armed, the flag armed only while something plays; hence at most one timeout and none while idle |
| Player.PlayerState.constructor | lib/player.js:12-17 | the module starts with no pending items, no users, nothing playing, the flag down, no timeout and empty logs; the invariant holds |
| Player.PlayerState.GetPlaylist | lib/player.js:42 | the view holds the playing item and the pending list as they are |
| Player.PlayerState.GetPlayingContent | lib/player.js:99 | returns the playing item |
| Player.PlayerState.AddToPlaylist | lib/player.js:44-48 | the item, tagged with the submitter, is appended at the tail and earlier items are unchanged; the rotation list becomes `AddUser` of the old one (old list kept, or the new name prepended); the invariant is kept |
| PlaylistStore.Tag | lib/player.js:45 | the pending item copies the content's identifier and path and carries the submitter's name |
| PlaylistStore.AddUser | lib/player.js:46-47 | a never-seen name goes to the front and the rest is the old list; a known name changes nothing; members are the old ones plus the name; duplicate-freedom is kept |
| PlaylistStore.EnrollAll | lib/player.js:66-69 | enrolling the submitters of a run of items keeps the list duplicate-free and adds exactly those submitters |
| PlaylistStore.EnrollAllStep | lib/player.js:69 | enrolling one more item applies `AddUser` for its submitter, and enrolling no item changes nothing |
| Player.PlayerState.RemoveFromPlaylist | lib/player.js:50-52 | the pending list becomes `RemoveId` of the old one; the invariant is kept |
| Seqs.Filter | lib/player.js:51 | a filter result is no longer than its input, holds only input elements that pass, and keeps every input element that passes |
| Seqs.FilterAppend | lib/player.js:51 | filtering distributes over concatenation, so survivors keep their relative order |
| Seqs.FilterPartition | lib/player.js:85 | a filter and its complement split the input's multiset between them |
| PlaylistStore.RemoveId | lib/player.js:51 | survivors come from the old list and lack the identifier; every item without it survives |
| PlaylistStore.RemoveIdDropsExactly | lib/player.js:51 | what is kept and what is dropped together make up the old multiset; everything dropped carries the identifier, duplicates included |
| PlaylistStore.RemoveAbsentId | lib/player.js:50-52 | removing an identifier that no item carries leaves the list unchanged |
| PlaylistStore.RemoveIdKeepsOrder | lib/player.js:51 | removal distributes over any split of the list, so the order of the rest is kept |
| PlaylistStore.Owned | lib/player.js:95 | exactly the user's items, from the list |
| PlaylistStore.Others | lib/player.js:85 | exactly the other users' items, from the list |
| PlaylistStore.FindById | lib/player.js:87 | a found item is in the list and carries the identifier; nothing is found exactly when no item carries it |
| PlaylistStore.FindByIdIsFirst | lib/player.js:87 | the found item is the first one in the list that carries the identifier |
| PlaylistStore.Lookup | lib/player.js:87-88 | at most one item per identifier, and none exactly when the identifier is not pending |
| PlaylistStore.FoundInOrder | lib/player.js:86-88 | no more items than listed identifiers, all taken from the pending list |
| PlaylistStore.FoundInOrderAppend | lib/player.js:86-88 | lookups are made in list order: the result for a concatenated list is the concatenation of the results |
| PlaylistStore.FoundInOrderAllFound | lib/player.js:86-88 | when every identifier is pending, the block has one item per identifier, the first pending item with it, in the listed order |
| PlaylistStore.FoundInOrderHasFound | lib/player.js:86-88 | whatever a listed identifier finds is in the reordered block |
| PlaylistStore.FoundInOrderSkipsStale | lib/player.js:88 | an identifier that is no longer pending is dropped and the rest is unaffected |
| PlaylistStore.Reordered | lib/player.js:85-90 | the new list draws every item from the old one and is no longer than the old list plus the listed identifiers |
| Player.PlayerState.SortUserPlaylist | lib/player.js:84-91 | the pending list becomes `Reordered(old, ids, u)`; the invariant is kept |
| PlaylistStore.ReorderedDrawsFromQueue | lib/player.js:84-91 | the other users' items come first in their old order; every submitter stays in rotation |
| PlaylistStore.ReorderReplacesBlock | lib/player.js:84-91 | when every listed identifier names an item of the user, the user's items become exactly the listed ones in the listed order, unlisted ones are gone, and the other users' items do not move |
| PlaylistStore.ReorderDuplicatesForeign | lib/player.js:84-90 | for every list and every listed identifier that finds another user's item, that item is pending at least once more after the reorder than before |
| PlaylistStore.ReorderDuplicatesForeignItem | lib/player.js:84-90 | worked example: ann lists bob's identifier and bob's item is pending twice |
| PlaylistStore.Shuffle | lib/player.js:95 | the shuffled sequence is a permutation of its input (same multiset) |
| PlaylistStore.Randomized | lib/player.js:94-96 | the other users' items come first, as they were, and the rest is a permutation of the user's items |
| PlaylistStore.RandomizeContainment | lib/player.js:93-97 | the other users' items keep their items and order; the user's items keep their multiset and form the tail block; the whole list keeps its multiset |
| PlaylistStore.RandomizeKeepsCover | lib/player.js:93-97 | after a shuffle every pending item's submitter is still in rotation |
| Player.PlayerState.RandomizeUserPlaylist | lib/player.js:93-97 | the pending list becomes `Randomized(old, u, rolls)`; the invariant is kept |
| Scheduler.Rotate | lib/player.js:106 | `k` left rotations move element `k + i` to position `i` and the first `k` to the tail |
| Scheduler.RotatePermutes | lib/player.js:104-106 | a rotation keeps the multiset of names and keeps them duplicate-free |
| Scheduler.FindByUser | lib/player.js:105 | a found item is in the list and belongs to the user; nothing is found exactly when the user has no pending item |
| Scheduler.FindByUserIsOldest | lib/player.js:105 | the found item is the user's oldest pending item |
| Scheduler.FirstServedFrom | lib/player.js:104-108 | the index found is the first user, from the start index on, who has a pending item; none is found exactly when nobody from there on has one |
| Scheduler.Schedule | lib/player.js:101-112 | with no pick, users and items are as they were; a pick is a pending item of a user in rotation; the rotation keeps its length |
| Scheduler.ScheduleOutcome | lib/player.js:109-112 | after a pick, the pending list is `RemoveId` of the picked identifier; with no pick, users and items are as they were |
| Scheduler.ScheduleServesEarliest | lib/player.js:101-112 | the pick is the oldest item of the earliest user in rotation who has one; every user before had nothing; that user moves to the tail; the picked identifier leaves the queue |
| Scheduler.ScheduleIdleKeepsState | lib/player.js:104-109 | when nobody has a pending item, the rotation is a full cycle: no pick, users and items unchanged |
| Scheduler.ScheduleIdleIffEmpty | lib/player.js:104-109 | under the invariant, nothing is picked exactly when nothing is pending |
| Scheduler.ScheduleKeepsInvariant | lib/player.js:104-112 | the new rotation is a duplicate-free permutation of the old one and still covers every pending item |
| Scheduler.ServedIndex | lib/player.js:104-108 | the served user's rotation index, with the new rotation being a left rotation by that index plus one and no earlier user pending |
| Scheduler.NoSecondTurnWhileOthersWait | lib/player.js:104-108 | if two consecutive picks serve the same user, no other user had anything pending after the first |
| Scheduler.BehindOldTail | lib/player.js:104-106 | after a second rotation, a name behind the previously served user stood at or before the second served user's index |
| Scheduler.WaitersServedBetween | lib/player.js:104-108 | whoever stands behind the previously served user after the second rotation had nothing pending |
| Scheduler.NoReturnWhileOthersWait | lib/player.js:101-112 | if three consecutive picks serve u, v and u again, nobody but u and v had anything pending before the third |
| Scheduler.WaitingUserAdvances | lib/player.js:104-108 | a user with a pending item who is not served moves strictly closer to the head |
| Scheduler.NewcomerServedNext | lib/player.js:44-48 | a submitter seen for the first time is at the head of the rotation, so their item is the next one played |
| Scheduler.ServeHead | lib/player.js:104-112 | when the head user has a pending item, their oldest item is played and they move to the tail |
| Scheduler.FirstTurn | lib/player.js:101-112 | worked example, first pick: ann's first item |
| Scheduler.SecondTurn | lib/player.js:101-112 | worked example, second pick: bob's item, ahead of ann's second |
| Scheduler.TwoUsersAlternate | lib/player.js:101-112 | ann queues two items before bob queues one, and the three picks go ann, bob, ann |
| Player.PlayerState.WalkRotation | lib/player.js:104-108 | the loop over a copy of `users` yields the scheduled item and leaves `users` as the scheduled rotation |
| Player.PlayerState.TakeNext | lib/player.js:101-112 | item, rotation and pending list equal `Schedule` of the old state; duplicate-freedom and coverage are kept |
| Player.PlayerState.StartPlayback | lib/player.js:115-122 | one play record is appended, the flag is armed with exactly one timeout outstanding, and the engine is told to load the path and resume |
| Player.PlayerState.PlayNext | lib/player.js:101-123 | nothing changes while an item plays; otherwise the state becomes the scheduled turn and one playlist view is broadcast; a pick logs one record, arms the flag with one timeout and loads the item; with no pick, no log, no engine command and the flag stays down |
| Player.PlayerState.OnStatusChange | lib/player.js:146-157 | a signal without end-of-file, or one while the flag is armed, changes nothing; otherwise the playing item is cleared and the scheduled turn is taken as in `playNext` |
| Player.PlayerState.TimerExpired | lib/player.js:122 | the timeout fires: the flag goes down and no timeout is outstanding |
| Player.PlayerState.SaveToM3uPlaylist | lib/player.js:55-60 | one record (submitter, path) is appended to the play log |
| Player.PlayerState.AddToReportPlaylist | lib/player.js:73-82 | one record ("user - comment", path) is appended to the report log |
| Player.PlayerState.Pause | lib/player.js:98 | one pause toggle is sent to the engine |
| Persistence.PlayRecord | lib/player.js:57-58 | the record carries the item's path, and its comment line gives the submitter back once the loader strips the first `#` |
| Persistence.PlayRecords | lib/player.js:55-58 | one record per played item, in play order |
| Persistence.ReportRecord | lib/player.js:75-76 | the record carries the content's path, and its comment is the reporter's name, " - " and the report text |
| Persistence.Serialize | lib/player.js:56-58 | each record becomes a `#comment` line followed by its path line |
| Persistence.Pairs | lib/player.js:63-66 | consecutive lines are paired as (comment, path); a trailing line without a partner is dropped |
| Persistence.StripFirstHash | lib/player.js:69 | a comment without `#` is unchanged |
| Persistence.StripFirstHashAt | lib/player.js:69 | exactly the first `#`, wherever it is, is removed |
| Persistence.Resolve | lib/player.js:67 | a resolved entry is in the registry with that path; nothing is resolved exactly when no entry has the path |
| Persistence.ResolveIsFirst | lib/player.js:67 | the resolved entry is the first registry entry with that path |
| Persistence.Admit | lib/player.js:67-69 | a chunk enqueues at most one item |
| Persistence.Loaded | lib/player.js:62-71 | no more items are loaded than there are chunks |
| Persistence.LoadedResolves | lib/player.js:67-69 | every loaded item is the registry entry its path resolves to |
| Persistence.LoadedPrefixStep | lib/player.js:66-70 | one more chunk adds what that chunk admits |
| Persistence.LoadedAllResolved | lib/player.js:62-71 | when every chunk resolves and its comment strips to the submitter, exactly the logged items are loaded, in order |
| Persistence.LoadedAppend | lib/player.js:66-70 | loading distributes over concatenation: file order is kept |
| Persistence.LoadedSkipsUnknown | lib/player.js:68 | a chunk whose path no longer resolves is skipped and the others are unaffected |
| Persistence.LoadRoundTrip | lib/player.js:55-71 | played items without a newline in submitter or path, logged and loaded back, come back as the same items, in order, with or without the trailing empty line |
| Player.PlayerState.LoadChunk | lib/player.js:66-70 | a resolved chunk enqueues its item as `addToPlaylist` does; an unresolved one changes nothing |
| Player.PlayerState.LoadPlaylist | lib/player.js:62-71 | the pending list gains exactly `Loaded(Pairs(lines))` at the tail, the rotation enrolls their submitters, and the invariant is kept |
| Persistence.DecimalString | lib/player.js:30 | the decimal form has at least one digit, and at least two from 10 on |
| Persistence.DecimalStringInjective | lib/player.js:30 | different numbers print differently |
| Persistence.CandidateName | lib/player.js:29-30 | the name starts with `today`; it is `today` exactly on the first try, and otherwise `today`, `-` and the try number in decimal |
| Persistence.CandidatePath | lib/player.js:34-37 | the tested file is `playlists/`, the candidate name and `.m3u` |
| Persistence.CandidatePathInjective | lib/player.js:29-37 | different tries test different files |
| Persistence.CandidatesBelowStep | lib/player.js:33-35 | each new try adds a file not tested before |
| Persistence.CandidatesBelowCount | lib/player.js:33-35 | the first `n` tries test `n` different files |
| Persistence.ExistingBound | lib/player.js:33-35 | if the first `n` tries all hit existing files, at least `n` files exist, so the search ends |
| Persistence.Probe | lib/player.js:33-37 | the try found is free, comes at or after the start, and every earlier try names an existing file |
| Persistence.CreateNewPlaylistFile | lib/player.js:21-39 | fails exactly when creating the directory fails with a code other than `EEXIST`, with "Unhandled error " and the message; otherwise returns a free name: `today` when free, else `today-k` for the smallest such `k` |
| Persistence.SecondStartGetsSuffix | lib/player.js:29-37 | with no files the name is `playlists/<today>.m3u`; when that exists, `playlists/<today>-1.m3u` |

## Left out

- The media engine (`node-mpv`) and `initPlayer`'s option assembly are not modelled: the process flags, the platform check and `observeProperty`. Engine calls are only recorded as ghost commands.
- `notifyPlaylist` is a network broadcast. It is recorded as a ghost sequence of the playlist views sent.
- The file system is abstracted:
  - logs are ghost sequences of records;
  - existing files are a finite set;
  - the outcome of creating the playlists directory is a parameter.
- The source tries to create the directory again on every try of the name search. The model takes one outcome for the whole search: after the first try the directory exists, so each retry reports `EEXIST` and is ignored.
- Errors of the file-existence check other than "file not found" are treated as a free name, as the source's catch does.
- The `m3u` writer's exact text is not available. `Serialize` and `LoadRoundTrip` take as given one `#comment` line followed by one path line per record.
- Persistence.LoadRoundTrip: holds only for items whose submitter and path contain no newline. The loader splits the file on newlines and the writer escapes nothing, so such a record is cut across lines and is not loaded back. The model hands `Serialize`'s lines to `Pairs` without joining and re-splitting the text, so that loss is not modelled.
- `moment`: the day's date is the parameter `today`.
- Shuffle: lodash's random draws are the parameter `rolls`, one draw per position. The contract is about every outcome, not about the distribution.
- The one-second `setTimeout` is the method `TimerExpired`, which the environment calls. Real time is not modelled.
- The media engine's order of events is the caller's choice. The model states what each event does, not which sequences the engine produces.
- Player.PlayerState.RandomizeUserPlaylist: its ensures gives the new list as `Randomized` and does not restate the permutation. That fact is proved once, in `RandomizeContainment`.
- `getPlaylist` hands out the live `contents` array, which a later `push` in `addToPlaylist` changes under the caller. `GetPlaylist` returns a snapshot value instead, so that aliasing is not modelled.
- Content metadata other than `id` and `path` is not modelled. The player never reads it.
- The source's truthiness tests (`if (content)`, `if (playingContent)`) are modelled as `Some`/`None`. Items are objects and always truthy.
