# Verified model of a chat server's permissions, video transport, search and transfer code

The project models, in Dafny, the parts of Decibell whose correctness spans
several functions or a whole run:

* **Channel layout, category sync and permission resolution**
  (`ChannelOrder`, `Roles`, `Permissions`, `CategorySync`, `Membership`,
  `Runs`, `RoleEffects`, `ChannelEffects`, `CommunityDb`, `Visibility`). The SQL tables are the fields of one
  value, `Tables`; each public method of `CommunityDb` is one atomic step on
  it. The class `CommunityDb` carries the four caches, and every one of its
  methods keeps them equal to recomputation from the tables. What an operation
  does to the tables is a function on `Tables`; what the design promises of it
  is a lemma about that function. `RoleEffects` and `ChannelEffects` say of each
  operation, in terms of rows, bits and places alone, what it changes and that
  nothing else changes.
* **Video fragmentation, XOR parity and reassembly** (`VideoPackets`,
  `VideoReceiver`, `VideoRuns`, `VideoOrder`, `VideoInOrder`,
  `VideoRecovery`, `VideoBetween`). The sender's loop, the receiver's two handlers with their
  in-place recovery, soundness over every delivery, and, as a condition on the
  order of arrival alone, exactly when and how often a frame is delivered, for
  any order with losses and repetitions, also when other frames' packets come
  between; and which frames are withheld while a keyframe is awaited.
* **Message search** (`SearchFold`, `SearchLetters`, `SearchQuery`,
  `SearchRows`, `SearchPaging`, `SearchWorker`, on `Utf8`). Folding of text, as
  a loop over bytes and as what it means for letters, case and accents, the query
  planner and its five drivers against the plain filter, bisection of dates
  into ids, paging by cursor and by rank, and the worker's supersede and cancel
  protocol in every interleaving.
* **Byte-exact transfer** (`Decimal`, `RangeHeaders`, `SealedRanges`,
  `Upload`, `UploadRuns`, `UploadRights`). Range headers on both sides against section 14.1.2
  of RFC 9110, ranges of an encrypted attachment end to end, and resumable
  upload over interrupted, overlapping connections.
* **Admission** (`RateLimit`, `ConnectionLimits`, `AdmissionRuns`, `UdpPath`).
  Token buckets over reals, the connection table and its sweep against a table
  that never forgets, and return-routability of UDP endpoints over whole runs.

Objects whose methods update fields are classes (`CommunityDb`,
`VideoSender`, `ParityGroup`, `StreamReceiver`, `SearchWorker`, `TokenBucket`,
`ConnectionLimits`, `UdpPath`, `Upload`, `Connection`); loops are loops, with
their invariants. Each method is proved equal to a function on values, and
the lemmas are about those functions and runs of them.

Clocks, random numbers, network deliveries, the decoder's verdict, the cipher
and the text index's matches and scores are parameters. SQL rows come in
arbitrary order where the query does not order them.

## Findings

Where the code and what is said of it part, the model follows the code:

* `ConnectionLimits` says past its cap new addresses are refused "until entries
  age out" (`src/community/connection_limits.hpp:28-30`). A sweep that leaves
  more than 50000 entries sets the next sweep above the cap, which the table
  never reaches: no sweep comes any more and every new address is refused for
  good. `AdmissionRuns.LastSweepIff` says which sweep is the last,
  `AdmissionRuns.NeverSweepsAgain` that from then on no entry is ever forgotten,
  `AdmissionRuns.FullTableAdmitsIff` exactly when a full table refuses,
  `AdmissionRuns.FloodSticks` reaches a full one from an empty table, and
  `AdmissionRuns.StuckForGood` shows nothing leaves it.
* `total_capped` is said to mean more than `total` match
  (`src/community/search.hpp:71`); it is also set when just as many match as
  are counted (10000, for the limits in use).
  `SearchPaging.CountIsExactIff`.
* `restore_channel_overwrites` checks no channel id, so it can leave rows of a
  channel that does not exist, and it does not mask the bits, so it alone can
  leave rows of a shape `set_overwrite` never writes.
  `CategorySync.RestoreKeepsIffKnown`, `Runs.ApplyKeepsInv`,
  `Runs.ApplyKeepsShape`. Its only caller restores the rows just listed for a
  known channel.
* `set_overwrite` accepts and stores a target id such as `007` or `7x`, which
  then concerns nobody: an accepted row concerns the role or member it was read
  as exactly when its id is written as numbers print.
  `Membership.OddTargetIsKnown`, `Membership.TargetConcernsIff`,
  `Membership.OddTargetIsInert`. Its only caller rewrites every id to canonical
  decimal first (`src/community/main.cpp:3839-3852`).
* The lock-out guard undoes an edit by writing the old bits back through the
  mask. That restores the tables exactly when the old row had a shape
  `set_overwrite` could have written. `CategorySync.EditUndoesEdit`; that every
  row keeps that shape is `Runs.RunKeepsShape`.
* The v11 migration leaves `perm_synced` set on categories without rows
  (`src/community/db.cpp:700-732`), and nothing clears it. It is never read.
  `Permissions.CategoryFlagUnread`.
* The position `create_channel` returns can be stale after normalisation.
  `CategorySync.CreatedPosition`.
* `parseRange` says an invalid header means a full response
  (`electron-client/electron/main/attachmentCrypto.ts:97-98`); its caller
  answers 416 to a header that is no range request
  (`electron-client/electron/main/attachmentFetch.ts:113-120`).
  `SealedRanges.NoRangeRefused`.
* The server reads `bytes=-n` as the bytes 0 to n and refuses a closed range
  that runs past the end, both unlike RFC 9110. `RangeHeaders.ServerAgreesIff`.
* `utf8_preview` subtracts 3 from a `size_t`; for a limit below 3 that wraps
  and the whole text is kept. `Utf8.PreviewFitsIff`.
* One loss in each parity group and all parity delivered does not bring a video
  frame together in every order. Two things stand in the way: parity that comes
  before the frame's first data packet is dropped
  (`src/client/video_engine.cpp:2427-2428`), and after one recovery on the data
  path no other is tried there (`src/client/video_engine.cpp:2259`).
  `VideoRecovery.EarlyParityStalls` and `VideoRecovery.OneLossEachStalls` are
  an order of each kind, `VideoInOrder.EarlyParityIsLost` and
  `VideoInOrder.LatchedGroupIsLost` the families, and
  `VideoRecovery.DeliveredExactly` with `VideoOrder.Recoverable` the exact
  condition on the order.
* The receiver keeps no memory of finished frames: later copies deliver a frame
  again, exactly when they bring it together by themselves.
  `VideoRecovery.LateCopiesReopen`; without repetitions that cannot happen,
  `VideoRecovery.WithoutRepetitions`.
* A running search of owner 0 is not superseded, and that of any other owner
  is. `SearchWorkers.OwnSubmitAnswersIff`. Sessions are numbered from 1, so no
  session has it.

## Model

| member | source | states |
|---|---|---|
| ChannelOrder.NormalizedOrder | src/community/db.cpp:2944-2992 | the loop over the ordered rows, flushing each block text first, computes `Normalize` |
| ChannelOrder.NormalizeIsPermutation | src/community/db.cpp:2944-2992 | renumbering duplicates and drops no row |
| ChannelOrder.NormalizeIsStable | src/community/db.cpp:2944-2992 | text channels keep their relative order, and so do voice channels and categories |
| ChannelOrder.NormalizeKeepsHeader | src/community/db.cpp:2944-2992 | every category header keeps its index |
| ChannelOrder.NormalizeKeepsParents | src/community/db.cpp:2171-2192 | every channel's nearest category above is unchanged |
| ChannelOrder.NormalizeFacts | src/community/db.cpp:2944-2992 | on a list without repeats: same rows, same parents, text above voice in every block |
| ChannelOrder.NormalizeIdempotent | src/community/db.cpp:2944-2992 | normalising twice is normalising once, and exactly the lists with text above voice in every block are fixed |
| ChannelOrder.InsertedIndex | src/community/db.cpp:2861-2937 | a row inserted at the end of a block is at that index after normalisation exactly when it is a voice channel or the block has no voice channel |
| Roles.RankedCount | src/community/db.cpp:1826-1830 | non-default positions are 1..N, each taken once, with N the number of non-default roles |
| Roles.RankingUnique | src/community/db.cpp:1832-1976 | the positions determine the ranked list |
| Roles.MaxPosition | src/community/db.cpp:1826-1830 | the query's maximum is the length of the ranked list |
| Roles.CreateInserts | src/community/db.cpp:1832-1865 | the shift of every position and the insert put the role at the bottom of the list |
| Roles.UpdateMoves | src/community/db.cpp:1867-1940 | the two shifted ranges of positions are one move within the list |
| Roles.DeleteRemoves | src/community/db.cpp:1942-1976 | the shift after a delete closes the gap |
| Permissions.SourceFacts | src/community/db.cpp:2205-2215 | in every reachable state a channel's rows are its own, or those of its parent category when it is synced, and then it has none |
| Permissions.CategoryFlagUnread | src/community/db.cpp:2180-2191 | the synced flag of a category changes no channel's source and no rows in force, in any state |
| Permissions.EntryUnique | src/community/db.cpp:2069-2108 | the entry computed for a member does not depend on the order rows come in |
| Permissions.ResolveFrame | src/community/db.cpp:2459-2517 | a resolution depends only on the rows in force, the member's roles, base permissions and voice pass |
| Permissions.SamePermissions | src/community/db.cpp:2459-2517 | tables that agree on a channel's rows in force, roles and owner give every member the same permissions there |
| Permissions.NearestRowsDecide | src/community/db.cpp:2474-2514 | the owner and whoever has a role with ADMINISTRATOR hold every bit below 64 in every channel, whatever its rows; anybody else holds a bit exactly if the nearest rows that mention it (the member's, then the roles', then everyone's, then the roles table; allow before deny) or a voice pass give it and VIEW is given that way too; no such channel, no bit |
| CategorySync.DetachKeeps | src/community/db.cpp:2270-2296 | copying the followed category's rows and unsyncing changes nothing in force |
| CategorySync.EnforceKeeps | src/community/db.cpp:2217-2236 | unsyncing channels that follow nothing changes nothing in force in any state, leaves none, and does nothing in a reachable one |
| CategorySync.OpenEstablishes | src/community/db.cpp:161-200 | opening a database, of one upgraded from before v11 too, establishes the invariant and changes nothing in force |
| CategorySync.ReorderKeeps | src/community/db.cpp:2994-3055 | moving channels changes nothing any channel has in force, and each channel's parent is the one the new order gives |
| CategorySync.SwitchKeeps | src/community/db.cpp:2313-2344 | turning a category's sync on or off changes nothing any channel has in force |
| CategorySync.RemoveKeeps | src/community/db.cpp:3079-3175 | deleting a channel or category changes nothing any other channel has in force |
| CategorySync.AddedLayout | src/community/db.cpp:2844-2931 | a new channel goes under the category asked for and no other channel changes parent |
| CategorySync.AddKeeps | src/community/db.cpp:2844-2931 | a new channel follows a syncing category from the start and has no rows otherwise; no other channel changes |
| CategorySync.CreatedPosition | src/community/db.cpp:2861-2942 | the position returned is the new row's place after normalisation exactly unless a text channel was put below voice channels |
| CategorySync.EditChangesOneTarget | src/community/db.cpp:2380-2457 | copy-on-write: the edited channel's rows in force change at exactly that target, so do the followers of an edited category, nothing else does, and a channel ends unsynced |
| CategorySync.SyncFollows | src/community/db.cpp:2298-2311 | syncing puts the category's rows in force on that channel alone |
| CategorySync.SyncUndoesEdit | src/community/main.cpp:3883-3893 | the lock-out guard's revert of an edit of a synced channel, syncing it again, restores the tables exactly |
| CategorySync.EditUndoesEdit | src/community/main.cpp:3886-3897 | the guard's revert of an edit of an unsynced channel, writing the old bits back through the mask, restores the tables exactly if and only if the old row was non-empty, masked and disjoint, or there was none |
| CategorySync.RestoreUndoesSync | src/community/main.cpp:4388-4393 | the guard's revert of a sync, restoring the rows listed before, restores the tables exactly |
| CategorySync.RestoreKeepsIffKnown | src/community/db.cpp:2346-2355 | a restore keeps the invariant exactly for a known channel or no rows |
| Membership.MemberOpsKeepInv | src/community/db.cpp:1552-1594 | leaving, being banned and changing roles keep the invariant |
| Membership.RoleCreateRefines | src/community/db.cpp:1832-1865 | on reachable tables create_role inserts at the bottom of the ranked list and keeps the invariant |
| Membership.RoleUpdateMoves | src/community/db.cpp:1867-1940 | update_role moves the role to the place asked for, counted from 1, or to the end of the list it lies beyond |
| Membership.DefaultRoleStays | src/community/db.cpp:1867-1940 | editing the default role moves nothing |
| Membership.RoleUpdateKeepsInv | src/community/db.cpp:1867-1940 | update_role keeps the invariant for every role and position asked for |
| Membership.RoleDeleteRefines | src/community/db.cpp:1942-1976 | delete_role removes the role from the ranked list and keeps the invariant |
| RoleEffects.CreatedRows | src/community/db.cpp:1832-1865 | create_role adds one row with the columns asked for, at position 1, and of every other row changes at most the position |
| RoleEffects.UpdatedRows | src/community/db.cpp:1867-1940 | update_role writes the columns asked for, of the default role only its bits and its peer flag, and of every other row changes at most the position |
| RoleEffects.DeletedRows | src/community/db.cpp:1942-1976 | delete_role takes the row, who held it and every overwrite of it; the other rows lose at most their position |
| RoleEffects.CreateChangesNobody | src/community/db.cpp:1832-1865 | creating a role changes nobody's permissions in any channel |
| RoleEffects.DeleteTakesTheRole | src/community/db.cpp:1942-1976 | deleting a role gives everybody exactly the permissions they have if it is taken from them, so it changes only its holders' |
| RoleEffects.UpdateChangesHolders | src/community/db.cpp:1867-1940 | editing a role other than the default one changes only its holders' permissions |
| RoleEffects.UpdateGrants | src/community/db.cpp:1867-1940 | whoever a role applies to gets its new bits in place of the old ones, on top of those of the other roles |
| RoleEffects.CreateKeepsRanks | src/community/db.cpp:1832-1865 | a new role goes under every other: all levels above 0 rise by one, so nobody passes anybody |
| RoleEffects.RankIs | src/community/db.cpp:2069-2108 | a member's level is the highest place of a role held, with its peer flag, and 0 without one; the owner has every bit and stands above all |
| Membership.OthersUntouched | src/community/db.cpp:1552-1594 | one member leaving or changing roles changes no other member's entry or permissions |
| Membership.NothingStays | src/community/db.cpp:1552-1594 | whoever left holds no role and has no row in any channel, everybody else keeps theirs, and a ban besides only records the name |
| Membership.HoldsExactly | src/community/db.cpp:2038-2067 | set_member_roles gives the member exactly the roles listed and changes nothing else |
| Membership.AssignableIff | src/community/db.cpp:2038-2067 | any known role but the default one can be given |
| Membership.EditTouchesItsTargets | src/community/db.cpp:2380-2457 | an overwrite edit changes no permission of a member its target does not concern, in any channel |
| Membership.TargetConcernsIff | src/community/db.cpp:2388-2399 | an accepted target concerns a member exactly if its id is the printed number it was read as and that is the default role (then as everyone), a role held (as a role) or the member (as the member) |
| Membership.OddTargetIsKnown | src/community/db.cpp:2388-2399 | `007` is read as 7 and is not how 7 prints, and is accepted exactly if there is a role, or member, 7 |
| Membership.OddTargetIsInert | src/community/db.cpp:2388-2399 | a target id that does not print the way it is written changes no permission of anybody |
| Runs.ApplyKeepsInv | src/community/db.cpp:2346-2355 | every operation keeps the invariant, a restore exactly if its channel is known or there are no rows |
| Runs.RunKeepsInv | src/community/db.hpp:61-67 | after every run of operations whose restores are of channels known when they happen (or of no rows) the order is normal, synced channels have no rows and a syncing parent, and role positions are 1..N |
| Runs.ApplyKeepsShape | src/community/db.cpp:2400-2447 | every operation leaves all stored rows non-empty, masked and disjoint, a restore exactly if the rows restored are |
| Runs.RunKeepsShape | src/community/db.cpp:2400-2447 | and so does every run |
| Runs.EveryEditIsUndone | src/community/main.cpp:3886-3897 | after every such run the guard's revert of an edit of an unsynced channel restores the tables exactly |
| Runs.StructuralRunKeepsPermissions | src/community/db.hpp:646-650 | over every run of moves, creations, deletions and sync switches a surviving channel allows every member exactly what it allowed |
| Runs.OnlySyncStartsFollowing | src/community/db.hpp:646-650 | after any operation but an explicit sync of it, a channel that follows a category followed the same one before |
| ChannelEffects.ParentIsNearest | src/community/db.cpp:2171-2192 | a channel's parent is the nearest category above it in the order, none if there is none, and a category has none |
| ChannelEffects.NormalizeKeepsBefore | src/community/db.cpp:2944-2992 | of two rows of one kind, the one that stood first still does |
| ChannelEffects.OrderAfter | src/community/db.cpp:2994-3055 | channels of one kind stand in the order the list asked for, and no other operation changes that order |
| ChannelEffects.KindsAfter | src/community/db.cpp:2823-3175 | a deleted channel is gone, a created one there, and no channel changes its kind |
| ChannelEffects.SyncingAfter | src/community/db.cpp:2313-2344 | a category syncs afterwards exactly if switched on, or syncing before and neither switched off nor deleted |
| ChannelEffects.PeopleUntouched | src/community/db.cpp:2823-3175 | channel operations leave roles, members, owner and bans alone, and edits and switches the order too |
| ChannelEffects.FollowsAfter | src/community/db.hpp:646-650 | exactly who follows a category after each operation: a move, a deletion and a switch release those they take from theirs, an edit or a restore the channel itself, a sync adds one, and nothing else changes anybody |
| ChannelEffects.CreatedFollows | src/community/db.cpp:2844-2931 | a channel created in a category that syncs follows it at once, and no other does |
| ChannelEffects.DenyWins | src/community/db.cpp:2405-2406 | a bit asked to be allowed and denied ends denied, and bits 9 and 25 up are dropped |
| ChannelEffects.EditWrites | src/community/db.cpp:2380-2457 | afterwards the target's row in force is there exactly if a known bit was asked for, says just what was asked, and every other row in force stays |
| ChannelEffects.PrintedTargetKnown | src/community/db.cpp:2388-2403 | a target written as ids print is taken exactly if it is a role or a member |
| ChannelEffects.ListingIff | src/community/db.cpp:2994-3055 | a reorder is taken for a permutation of the channels, and nothing else |
| ChannelEffects.CanSyncIff | src/community/db.cpp:2298-2311 | a sync is taken exactly for a channel whose nearest category syncs |
| ChannelEffects.PlaceIff | src/community/db.cpp:2861-2885 | a channel can be created as a category, above all categories, or in a category there is |
| CommunityDatabase.CommunityDb.Open | src/community/db.cpp:161-200 | opening yields valid caches over the opened tables, synced flags on categories included |
| CommunityDatabase.LayoutPass | src/community/db.cpp:2171-2192 | the one pass over the rows computes every channel's parent and flags |
| CommunityDatabase.CommunityDb.OverwriteSource | src/community/db.cpp:2205-2215 | the source answered through the layout cache is the one the tables give |
| CommunityDatabase.CommunityDb.OverwriteRows | src/community/db.cpp:2141-2162 | rows read through the cache are the table's |
| CommunityDatabase.CommunityDb.ListOverwrites | src/community/db.cpp:2164-2167 | the rows listed for a channel are those in force on it |
| CommunityDatabase.CommunityDb.PermEntryOf | src/community/db.cpp:2069-2108 | the entry answered, cached or not, is the member's entry by the tables |
| CommunityDatabase.CommunityDb.EffectivePermissions | src/community/db.cpp:2110-2117 | the base permissions answered, cached or not, are those of the tables |
| CommunityDatabase.CommunityDb.ParentCategory | src/community/db.cpp:2199-2203 | the parent answered through the layout cache is the nearest category above |
| CommunityDatabase.CommunityDb.CanModerate | src/community/authz.hpp:88-90 | exactly a strictly higher level may moderate |
| CommunityDatabase.CommunityDb.ArePeers | src/community/db.cpp:2129-2137 | true exactly for two different non-owners whose highest role is the same one and has the flag |
| CommunityDatabase.CommunityDb.ChannelPermissions | src/community/db.cpp:2459-2522 | the answer, cached or not, is what the tables and voice passes give |
| CommunityDatabase.CommunityDb.GrantVoicePass | src/community/db.cpp:2359-2363 | adds one pass and keeps every cache entry right |
| CommunityDatabase.CommunityDb.RevokeVoicePass | src/community/db.cpp:2365-2372 | removes exactly that pass, says whether it was held, and keeps every cache entry right |
| CommunityDatabase.CommunityDb.AddMember | src/community/db.cpp:1406-1420 | joins a positive id once and keeps every cache entry right |
| CommunityDatabase.CommunityDb.RemoveMember | src/community/db.cpp:1552-1594 | takes the member's rows, roles, passes and membership and keeps every cache entry right |
| CommunityDatabase.CommunityDb.AddBan | src/community/db.cpp:1701-1749 | bans and removes a member and keeps every cache entry right |
| CommunityDatabase.CommunityDb.SetMemberRoles | src/community/db.cpp:2038-2067 | replaces the roles exactly when all ids are known and not the default one, else changes nothing |
| CommunityDatabase.CommunityDb.TransferOwnership | src/community/db.cpp:1386-1396 | hands over to a member exactly, and keeps every cache entry right |
| CommunityDatabase.CommunityDb.CreateRole | src/community/db.cpp:1832-1865 | creates the role as the value function says and keeps every cache entry right |
| CommunityDatabase.CommunityDb.UpdateRole | src/community/db.cpp:1867-1940 | updates the role as the value function says and keeps every cache entry right |
| CommunityDatabase.CommunityDb.DeleteRole | src/community/db.cpp:1942-1976 | deletes the role as the value function says and keeps every cache entry right |
| CommunityDatabase.CommunityDb.EnforceSyncInvariant | src/community/db.cpp:2217-2236 | unsyncs exactly the strays and forgets what that touches |
| CommunityDatabase.CommunityDb.SetCategorySync | src/community/db.cpp:2313-2344 | switches a category's sync, giving followers their own rows when it goes off, and keeps every cache entry right |
| CommunityDatabase.CommunityDb.ReorderChannels | src/community/db.cpp:2994-3055 | accepts exactly a listing of all ids, detaches what leaves a syncing category, and keeps every cache entry right |
| CommunityDatabase.CommunityDb.DeleteChannel | src/community/db.cpp:3079-3175 | deletes as the value function says and keeps every cache entry right |
| CommunityDatabase.UniqueId | src/community/db.cpp:2835-2842 | the id is the first free of the slug, slug-2 to slug-999, printed so, and none is free exactly when the answer is taken |
| CommunityDatabase.InsertionIndex | src/community/db.cpp:2861-2885 | the insertion index is the end of the category's block, none for an unknown category |
| CommunityDatabase.CommunityDb.CreateChannel | src/community/db.cpp:2823-2942 | creates exactly when name, category and a free id allow, and keeps every cache entry right |
| CommunityDatabase.CommunityDb.SetOverwrite | src/community/db.cpp:2380-2457 | edits with masked bits, deny winning, exactly for a known channel and target, and keeps every cache entry right |
| CommunityDatabase.CommunityDb.SyncChannelPermissions | src/community/db.cpp:2298-2311 | syncs exactly under a syncing category and keeps every cache entry right |
| CommunityDatabase.CommunityDb.RestoreChannelOverwrites | src/community/db.cpp:2346-2355 | restores rows without checking the channel; the invariant survives exactly for a known channel or no rows |
| CommunityDatabase.RowMapRows | src/community/db.cpp:2346-2355 | rows listed without repetition are restored with just their bits |
| Visibility.VisibleChannels | src/community/authz.hpp:120-139 | the loop with its pending category lists exactly the channels of `Shown` |
| Visibility.CategoryShown | src/community/authz.hpp:114-119 | a category is listed exactly when it or a channel of its block is viewable |
| Visibility.ShownParents | src/community/authz.hpp:114-119 | in the listing each channel's nearest category above is its own parent |
| Visibility.VisibleFacts | src/community/authz.hpp:114-139 | all of this for a whole database, with every viewable channel listed |
| Visibility.ShownInOrder | src/community/authz.hpp:114-139 | the rows are shown in display order, each once |
| VideoPackets.TotalFitsIff | src/client/video_engine.cpp:272-286 | the 16-bit packet count is the true one exactly up to 65535 packets |
| VideoPackets.SendChunk | src/client/video_engine.cpp:286-346 | one loop body sends the chunk's packet and, when its group is full, the group's parity |
| VideoPackets.Fragment | src/client/video_engine.cpp:272-362 | the whole loop, with its in-place parity accumulator, sends `Wire` |
| VideoPackets.VideoSender.FragmentAndSend | src/client/video_engine.cpp:272-366 | an empty frame sends nothing; any other takes the next 32-bit id and sends `Wire` |
| VideoPackets.XorAssociates | src/client/video_engine.cpp:2276-2284 | exclusive-or of sizes is associative |
| VideoReceiver.StreamReceiver.ProcessDatagram | src/client/video_engine.cpp:2179-2418 | the handler computes `ReceiveData` |
| VideoReceiver.StreamReceiver.EvictStale | src/client/video_engine.cpp:2188-2198 | the erasing loop computes `Evicted`; what that keeps is in `VideoBetween.DataSparesIff` |
| VideoReceiver.Recover | src/client/video_engine.cpp:2260-2298 | counting the missing packets and XORing the others out of the parity, in place, computes `Recovered` |
| VideoReceiver.RecoverAll | src/client/video_engine.cpp:2259-2299 | the pass over the stored groups computes `RecoveredAll` with its flag |
| VideoReceiver.StreamReceiver.ProcessFecPacket | src/client/video_engine.cpp:2420-2501 | the handler computes `ReceiveFec`, with the synthetic duplicate that completes a frame |
| VideoRuns.WireIsHonest | src/client/video_engine.cpp:272-362 | every packet sent is a data packet or parity packet of its frame |
| VideoRuns.StoreKeeps | src/client/video_engine.cpp:2220-2236 | storing an arrived packet keeps the buffer's bytes the frame's, zero where nothing arrived |
| VideoRuns.ParityIsOthers | src/client/video_engine.cpp:2274-2284 | a parity byte is the other packets' bytes with the missing one, padded |
| VideoRuns.SizesAreOthers | src/client/video_engine.cpp:2274-2284 | and so for the sizes |
| VideoRuns.RebuiltIsChunk | src/client/video_engine.cpp:2274-2297 | with one packet missing, the XOR of parity and the rest, with zero padding, is that packet |
| VideoRuns.RecoverOne | src/client/video_engine.cpp:2260-2298 | with exactly one packet of the group missing, a recovery stores that packet as sent |
| VideoRuns.RecoverKeeps | src/client/video_engine.cpp:2260-2298 | a recovery either rebuilds exactly the one missing packet of its group or changes nothing |
| VideoRuns.CompleteIsFrame | src/client/video_engine.cpp:2301-2303 | when every packet is there the first actual_size bytes are the sender's frame |
| VideoRuns.ReassemblyIsSound | src/client/video_engine.cpp:2200-2303 | over any delivery of sent packets, lost, reordered, duplicated and interleaved, every completed frame is the frame sent |
| VideoRuns.EveryCompletedFrameWasSent | src/client/video_engine.cpp:2200-2303 | the same for a receiver that starts empty |
| VideoOrder.StepSettles | src/client/video_engine.cpp:2259-2299 | no packet leaves a stored parity that could be used, unless the recovery flag is set |
| VideoOrder.CompleteIff | src/client/video_engine.cpp:2213-2303 | after any arrivals the buffer is full exactly if each packet came, or a copy of its group's parity came after a data packet and after all the group's other data, or came earlier with no packet before the last of that data leaving a group of held parity one short |
| VideoOrder.TallyIsDeliveries | src/client/video_engine.cpp:2301-2418 | counted arrival by arrival or read off the order, a frame is delivered equally often: at the first moment it is recoverable, and again for what comes after |
| VideoOrder.DeliveredIff | src/client/video_engine.cpp:2301-2303 | a frame is delivered at all exactly if the whole order is recoverable |
| VideoOrder.OnceIfDistinct | src/client/video_engine.cpp:2408-2416 | without repetitions a frame is delivered at most once |
| VideoOrder.DeliveredAgain | src/client/video_engine.cpp:2200-2211 | after a delivery the later arrivals deliver the frame as often as they do by themselves |
| VideoInOrder.InOrderIff | src/client/video_engine.cpp:314-362 | the sending order with all parity is recoverable exactly if each group lost at most one packet and a trailing group of one none |
| VideoInOrder.InOrderOnce | src/client/video_engine.cpp:314-362 | and then the frame is delivered exactly once, else never |
| VideoInOrder.EarlyParityIsLost | src/client/video_engine.cpp:2427-2428 | a packet that never came, with its group's parity all before the first data packet, leaves the frame undelivered |
| VideoInOrder.LatchedGroupIsLost | src/client/video_engine.cpp:2259-2299 | so does one whose group's parity all came too early, if another packet left a group of held parity one short first; data and parity packets may come in any order |
| VideoRecovery.WireArrives | src/client/video_engine.cpp:286-362 | every packet sent is the data packet or the parity packet its header names |
| VideoRecovery.PassRebuilds | src/client/video_engine.cpp:2259-2299 | over any stored parities, with repetitions, the pass rebuilds the one packet of the one group that lacks one, and sets the flag |
| VideoRecovery.AbsorbStep | src/client/video_engine.cpp:2213-2303 | what a data packet makes of the buffer is the order's step, and it is complete exactly when that is |
| VideoRecovery.ParityStep | src/client/video_engine.cpp:2430-2470 | what a parity packet makes of it is the order's step, whatever the flag |
| VideoRecovery.DeliveredExactly | src/client/video_engine.cpp:2179-2501 | a receiver that has nothing of a frame, given the frame's packets in any order, with any losses and repetitions, delivers the frame exactly as often as the order says, each time with its bytes |
| VideoRecovery.InOrderRecoveryIsComplete | src/client/video_engine.cpp:314-362 | in sending order with all parity, the frame is delivered, once, with its bytes, exactly if each group lost at most one packet |
| VideoRecovery.NothingLost | src/client/video_engine.cpp:286-362 | with nothing lost what arrives is all that was sent |
| VideoRecovery.WithoutRepetitions | src/client/video_engine.cpp:2179-2501 | without repetitions it is delivered once if the order is recoverable, and else not |
| VideoRecovery.EarlyParityStalls | src/client/video_engine.cpp:2427-2428 | two packets, one lost and the parity first: nothing is delivered |
| VideoRecovery.OneLossEachStalls | src/client/video_engine.cpp:2259-2299 | seven packets, one lost in each of two groups, all parity after a data packet, the second group's made good first: nothing is delivered |
| VideoRecovery.LateCopiesReopen | src/client/video_engine.cpp:2200-2211 | a frame delivered by the last of some packets is delivered again exactly as often as later packets bring it together by themselves |
| VideoBetween.DataSparesIff | src/client/video_engine.cpp:2187-2198 | a data packet leaves another frame's buffer as it is exactly if that frame is at most five behind the packet's and no later frame was decoded by the packet; it hands over at most the packet's own frame |
| VideoBetween.FecSparesIff | src/client/video_engine.cpp:2420-2501 | so does a parity packet that completes its frame; any other leaves every other frame alone |
| VideoBetween.SparesIff | src/client/video_engine.cpp:2406-2415 | both together: the condition on the packet under which another frame's buffer stays |
| VideoBetween.MismatchDrops | src/client/video_engine.cpp:2213-2216 | a packet that does not agree on the number of packets costs the frame what came of it |
| VideoBetween.DeliveredAmongOthers | src/client/video_engine.cpp:2179-2501 | among whatever packets of other frames that, while the frame is in assembly, are at most five ahead and decode no later frame, a frame is delivered exactly as often as the order of its own packets says, each time with its bytes |
| VideoBetween.WithheldIff | src/client/video_engine.cpp:2318-2401 | over any run of any packets, a frame is withheld from the decoder exactly if it is a delta frame and no keyframe was decoded since the decoder last failed |
| SearchFold.FoldBytes | src/community/search.cpp:133-157 | the loop computes `Fold` on every byte string |
| SearchFold.FoldIsIdempotent | src/community/search.cpp:133-157 | folding folded text changes nothing, on every byte string |
| SearchFold.DistributesIffComplete | src/community/search.cpp:133-157 | folding distributes over concatenation with every second part exactly when the first ends at a character's end |
| SearchFold.VerbatimIsFound | src/community/search.cpp:218-229 | a valid fragment occurring in a valid text occurs, folded, in the folded text |
| SearchLetters.FoldIsPlain | src/community/search.cpp:79-113 | a code point folds to its letter without case and accent: the base of an accented Latin letter, else the small letter of a capital, else itself |
| SearchLetters.CaseIsNoDifference | src/community/search.hpp:82-86 | a capital and its small letter, and an accented letter and its base, are one letter |
| SearchLetters.ValidIsText | src/community/search.cpp:115-131 | valid text is the encoding of some code points |
| SearchLetters.FoldAlikeIff | src/community/search.hpp:82-86 | two texts fold alike exactly if, combining marks dropped, they are the same letters up to case and accents |
| SearchLetters.FoldedIsPlain | src/community/search.hpp:82-86 | a folded text has no capital, no accented letter and no combining mark |
| SearchLetters.FoundIff | src/community/search.cpp:218-229 | a folded fragment occurs in a folded text exactly if some stretch of the text is the fragment up to case, accents and combining marks |
| SearchLetters.AccentEitherWay | src/community/search.cpp:133-157 | an accent may be part of the letter, follow it as a combining mark, or be missing, anywhere in a text |
| SearchLetters.OddBytesStay | src/community/search.cpp:149-150 | stray bytes and a cut-off character are kept |
| SearchLetters.FragmentIff | src/community/search.hpp:50-53 | a search takes a message by a folded fragment exactly if some stretch of its text is the fragment in that sense |
| SearchQuery.BuildQuery | src/community/search.cpp:434-532 | the clauses pushed one by one are `QueryOf` |
| SearchRows.PlanIsFilter | src/community/search.cpp:434-532 | whichever index drives, the query's conditions are those of the plain filter with the cursor and the id bounds |
| SearchRows.RowsAreRemaining | src/community/search.cpp:434-532 | the distinct rows of the query are the messages that pass the filter past the cursor, in sort order, when the bounds leave none of them out |
| SearchPaging.FirstIdAtOrAfter | src/community/search.cpp:359-391 | bisection over sparse ids finds the first message at or after a time, -1 exactly when there is none |
| SearchPaging.DateWindow | src/community/search.cpp:414-431 | the id bounds, and the early empty answers, leave out no message the dates allow |
| SearchPaging.Walk | src/community/search.cpp:549-582 | the row loop with its duplicate check, page, count and early stops gives `PageOf` of the distinct rows |
| SearchPaging.Execute | src/community/search.cpp:393-617 | a search answers the first page of the messages passing the plain filter past the cursor, with has_more exactly when another follows; by relevance, a page of the ranked pool |
| SearchPaging.NextPage | src/community/search.cpp:499-502 | searching past a page's last id leaves exactly the rest |
| SearchPaging.PagesShowEachMatchOnce | src/community/search.hpp:59 | by date, following the cursor from answer to answer shows every passing message exactly once, in sort order, and nothing else |
| SearchPaging.PageSize | src/community/search.cpp:549-583 | a search by date shows as many results as asked for, 25 if that is not positive, or all that are left, and says exactly if more are |
| SearchPaging.RankedPageSize | src/community/search.cpp:549-597 | one by relevance so many of the ranked 2000, from the offset on |
| SearchPaging.CountIsExactIff | src/community/search.hpp:70-71 | the total a search answers is the number of messages that match exactly if it is not capped or just as many match as are counted; it is capped exactly if at least so many match |
| SearchPaging.RankedPagesShowThePool | src/community/search.cpp:583-592 | ranked pages show the newest 2000 matches, each once, in order of rising score and, among equal ones, falling id |
| SearchWorkers.SearchWorker.Submit | src/community/search.cpp:302-318 | the loop replaces in place, refuses when full, or appends, as `Submitted` says |
| SearchWorkers.SearchWorker.Cancel | src/community/search.cpp:320-327 | drops the owner's queued search and flags its running one |
| SearchWorkers.AcceptedIff | src/community/search.cpp:302-318 | a search is accepted exactly if its owner had one queued, which it replaces, or fewer than 32 are; it flags the owner's running search and leaves other owners' as they are |
| SearchWorkers.CancelDrops | src/community/search.cpp:320-327 | cancelling takes the owner's search out of the queue and keeps every other in its place |
| SearchWorkers.EverySearchIsAccountedFor | src/community/search.cpp:302-357 | in every interleaving at most 32 searches are queued, one an owner, and each submitted one is pending, answered once, or dead and unanswered |
| SearchWorkers.SupersededNeverAnswers | src/community/search.cpp:302-357 | a search superseded or cancelled before its completion check never answers |
| SearchWorkers.OwnSubmitAnswersIff | src/community/search.cpp:305 | a running search still answers though its owner submitted another exactly if that owner is 0, in every state with one running, not cancelled and not stopped |
| SearchWorkers.OwnerZeroStillAnswers | src/community/search.cpp:305 | one submission and one turn away from the start |
| SearchWorkers.SubmitKeepsTurns | src/community/search.cpp:306-311 | a replaced search keeps its turn, and no submission moves anybody |
| SearchWorkers.TurnComes | src/community/search.cpp:302-357 | once more searches were taken than stood before one, it was among them |
| Utf8.ValidPrefixIff | src/community/db.hpp:290-298 | valid text is valid up to exactly the places where no character is cut |
| Utf8.Utf8Prefix | src/server/wire_limits.hpp:39-44 | the walk back computes `Prefix` |
| Utf8.PrefixIsLongest | src/community/db.hpp:302-310 | the cut of valid text is its longest valid prefix within the limit |
| Utf8.LongestIsUnique | src/community/db.hpp:302-304 | there is one longest valid prefix |
| Utf8.PrefixComposes | src/community/db.hpp:302-310 | two cuts are one cut to the smaller limit, on every byte string |
| Utf8.ClampUtf8 | src/community/db.hpp:283-300 | strips control characters and cuts |
| Utf8.ClampDisplay | src/server/wire_limits.hpp:54-65 | computes the same as clamp_utf8 |
| Utf8.ClampIsLongest | src/community/db.hpp:283-300 | a clamp is the longest valid prefix of the stripped text, and clamping again clamps the original to the smaller limit |
| Utf8.StripsControls | src/community/db.hpp:283-300 | just the bytes below 0x20 and 0x7F are stripped, wherever they stand |
| Utf8.Utf8Preview | src/server/wire_limits.hpp:48-52 | computes `Preview` with the subtraction in size_t |
| Utf8.PreviewFitsIff | src/server/wire_limits.hpp:46-52 | a preview is valid, and within its limit exactly when the text fits or the limit is at least 3 |
| Decimal.StollReadsToString | src/community/db.cpp:2388-2399 | stoll reads back a printed number whatever non-digit follows |
| RangeHeaders.ClientReadsTheRange | electron-client/electron/main/attachmentCrypto.ts:99-118 | parseRange reads every range request, with white space around it, as RFC 9110 means it |
| RangeHeaders.ParsesAs | electron-client/electron/main/attachmentCrypto.ts:99-118 | a header of that form, its numbers printed any way, is read as the range they say |
| RangeHeaders.ParsesNothingElse | electron-client/electron/main/attachmentCrypto.ts:99-118 | any other text is no range |
| RangeHeaders.RangeBranch | src/community/attachment_http.cpp:883-898 | the Range branch computes `ServerReads` |
| RangeHeaders.ServerReadsTheRange | src/community/attachment_http.cpp:883-898 | what the server makes of each form of range request |
| RangeHeaders.ServerReadsOthers | src/community/attachment_http.cpp:883-898 | a header in another unit is ignored, a range without a dash refused, and whatever part is served lies in the file |
| RangeHeaders.ServerAgreesIff | src/community/attachment_http.cpp:883-898 | the server agrees with RFC 9110 exactly on open ranges, closed ranges within the file, and suffixes of an empty file |
| SealedRanges.CountCovers | electron-client/electron/main/attachmentCrypto.ts:55-57 | the chunk count is the least that covers the plaintext |
| SealedRanges.SealedChunkAt | electron-client/electron/main/attachmentCrypto.ts:6-15 | sealed chunk i lies at i*(C+16) in the file, whose length is ciphertextSize, and is as long as the client will cut it |
| SealedRanges.PlanCovers | electron-client/electron/main/attachmentCrypto.ts:122-153 | the planned chunks exist and cover the plaintext range |
| SealedRanges.ServerServesThePlan | src/community/attachment_http.cpp:883-898 | the server accepts the planned range string and answers exactly the covering chunks |
| SealedRanges.OpenChunks | electron-client/electron/main/attachmentFetch.ts:142-156 | the split, open and join loop computes `Opened` |
| SealedRanges.OpenedIsPlain | electron-client/electron/main/attachmentFetch.ts:142-156 | the covering chunks, cut and opened by index and joined, are that stretch of the plaintext, a short last chunk included |
| SealedRanges.ClientTrimsToRange | electron-client/electron/main/attachmentCrypto.ts:147-152 | trimmed, they are exactly the requested range |
| SealedRanges.FetchDecrypted | electron-client/electron/main/attachmentFetch.ts:108-179 | end to end, for every size, chunk size and header, whether or not the server honours ranges: a range request is answered with the first four mebibytes of the positions RFC 9110 has it select, 416 if it selects none of a non-empty file, and no header with the whole plaintext |
| SealedRanges.FirstFourMebibytes | electron-client/electron/main/attachmentFetch.ts:108-112 | what the reply to a range request is: from its first position, to its last or the four-mebibyte mark |
| SealedRanges.NoRangeRefused | electron-client/electron/main/attachmentFetch.ts:113-120 | a header that is no range request is refused |
| SealedRanges.AskingOnGetsAll | electron-client/electron/main/attachmentFetch.ts:108-112 | a client that asks on from where each answer ended gets the whole range, in order, nothing twice |
| Uploads.Connection.HandlePatch | src/community/attachment_http.cpp:557-626 | refuses with the code of the first failing check, else starts the transfer at the file's end, finishing it if the body already came |
| Uploads.Connection.ReadChunk | src/community/attachment_http.cpp:631-652 | buffers a whole chunk and finishes with the last |
| Uploads.Connection.FinishPatch | src/community/attachment_http.cpp:656-686 | everything buffered is in the file and the offset answered is the one declared |
| Uploads.Connection.Close | src/community/attachment_http.cpp:292-299 | a cut connection leaves a beginning of what it buffered |
| Uploads.Upload.HandleHead | src/community/attachment_http.cpp:690-722 | refuses exactly strangers; the offset answered while uploading is the only one a PATCH is not refused for, and is the declared size exactly if the upload can be completed; a ready file takes neither |
| Uploads.Upload.HandleComplete | src/community/attachment_http.cpp:726-749 | completes exactly a file of the declared size |
| UploadRights.TakenIff | src/community/attachment_http.cpp:557-626 | a PATCH is taken exactly from the uploader, while a member and the upload is open, at the file's end, within both sizes; complete from the same, for a whole file |
| UploadRights.NeverOutgrows | src/community/attachment_http.cpp:557-749 | over any run of any clients the file never outgrows the declared size or a positive server limit, and never shrinks |
| UploadRights.OnlyTheUploader | src/community/attachment_http.cpp:557-749 | over any run, whatever changes the file, its row or a transfer was sent by the one who began the upload, while a member |
| UploadRuns.FileIsAlwaysAPrefix | src/community/attachment_http.cpp:557-749 | over any run of interrupted, overlapping uploads by an honest client the file is a prefix of the client's, within the declared size, losing no byte, and ready only whole |
| UploadRuns.FreshIsOk | src/community/attachment_http.cpp:536-549 | an upload just begun is in such a state |
| UploadRuns.ResumeCompletes | src/community/attachment_http.cpp:690-749 | from any such state, realigning by HEAD, sending the rest and completing makes the whole file ready |
| RateLimit.TokenBucket.TryTake | src/community/rate_limit.hpp:24-29 | refills, then takes one token exactly if there is one |
| RateLimit.TokenBucket.WaitSeconds | src/community/rate_limit.hpp:32-35 | the wait answered is exact: a take at any later time succeeds exactly once it is over |
| RateLimit.TokenBucket.Full | src/community/rate_limit.hpp:38-41 | true exactly if the bucket can be forgotten: it is then the bucket its owner would be given anew |
| RateLimit.RefillComposes | src/community/rate_limit.hpp:44-50 | a refill on the way changes nothing later |
| RateLimit.EarnsSteadily | src/community/rate_limit.hpp:44-50 | tokens come at the refill rate, up to the capacity |
| RateLimit.WaitIsExact | src/community/rate_limit.hpp:32-35 | a take succeeds exactly when the wait answered is over |
| Admission.ConnectionLimits.AdmitFrom | src/community/connection_limits.hpp:40-59 | admission computes `Admit` |
| Admission.ConnectionLimits.Sweep | src/community/connection_limits.hpp:83-89 | the erasing loop drops exactly the idle entries |
| Admission.ConnectionLimits.ReleaseFrom | src/community/connection_limits.hpp:61-67 | returns one slot of a known address that holds one |
| Admission.AdmitKeepsCaps | src/community/connection_limits.hpp:40-59 | open is the sum of the addresses' connections, within the server's cap and 256 an address |
| AdmissionRuns.AdmittedIff | src/community/connection_limits.hpp:40-59 | a connection is let in exactly if the server and its address have a place free, a token is there and the table has room; each refusal names the first of these that fails |
| AdmissionRuns.TokensAre | src/community/connection_limits.hpp:91-97 | an address has 60 tokens when first seen and then ten more a second, up to 60 |
| AdmissionRuns.CloseGivesBack | src/community/connection_limits.hpp:61-67 | a close gives back one connection its address holds, of its own and of the server's, and nothing of anybody else |
| AdmissionRuns.CountIsHeld | src/community/connection_limits.hpp:40-89 | over any run the table's count of an address is what it was let in minus what it closed, whatever was swept |
| AdmissionRuns.CapsAlwaysHold | src/community/connection_limits.hpp:40-67 | the same over every run |
| AdmissionRuns.SweepIsInvisible | src/community/connection_limits.hpp:83-89 | a sweep forgets only what a new entry starts with |
| AdmissionRuns.ForgettingIsInvisible | src/community/connection_limits.hpp:40-89 | while nobody is refused for want of room, every answer is that of a table that never forgets |
| AdmissionRuns.LimitsSurviveForgetting | src/community/connection_limits.hpp:40-89 | so it is in every run of at most 100000 addresses |
| AdmissionRuns.RatePerWindow | src/community/connection_limits.hpp:91-97 | in any stretch of T seconds of any run an address is admitted at most 60 + 10 T times |
| AdmissionRuns.FullTableAdmitsIff | src/community/connection_limits.hpp:28-30 | a full table refuses a new address exactly if the next sweep is due past the cap or no entry is idle |
| AdmissionRuns.LastSweepIff | src/community/connection_limits.hpp:83-89 | a sweep puts the next one past the cap exactly if it leaves more than half of it |
| AdmissionRuns.NeverSweepsAgain | src/community/connection_limits.hpp:40-59 | from then on, over any run, no sweep comes and the addresses only grow |
| AdmissionRuns.StuckForGood | src/community/connection_limits.hpp:40-53 | past that, no run ever admits a new address |
| AdmissionRuns.FloodSticks | src/community/connection_limits.hpp:40-53 | 100000 addresses connecting at once reach that state |
| UdpPaths.UdpPath.MakeChallenge | src/community/udp_path.hpp:58-75 | computes `Challenged`, the random source a parameter |
| UdpPaths.UdpPath.AcceptEcho | src/community/udp_path.hpp:79-89 | computes `Echoed` |
| UdpPaths.EveryBindingIsProven | src/community/udp_path.hpp:11-16 | over every run each binding answers a cookie sent to exactly that address and drawn at most ten seconds before, no draw binds twice, and the bound endpoint is the last binding's |
| UdpPaths.FewChallengesPerWindow | src/community/udp_path.hpp:35-38 | at most T/250 ms + 1 challenges go out in any window T |
| UdpPaths.ChallengeGoesOutIff | src/community/udp_path.hpp:58-75 | a challenge goes out exactly if none did in the last 250 ms and there is a cookie: the one sent to that address less than ten seconds ago, which is sent again, or else one the random source gives |
| UdpPaths.HonestEchoBinds | src/community/udp_path.hpp:58-89 | an address that echoes its cookie in time is bound, whatever repeated triggers and failed echoes come between |

## Left out

- SQLite, statement failures, schema migrations and the transactions' rollbacks: every statement succeeds and every public method is one step.
- Renames, topics, retention and the other columns no permission depends on.
- `claim_legacy`, invites, slug making: the slug is a parameter of CreateChannel.
- CommunityDatabase.CommunityDb.AddBan: models the ban as the steps of a removal and the ban itself; the ban's text, expiry and audit rows are not modelled.
- CommunityDatabase.CommunityDb.CreateChannel: requires a non-empty slug, which the slug maker always gives; the channel's name, bitrate and encryption columns are not modelled.
- CommunityDatabase.CommunityDb.DeleteChannel: the message, attachment and key rows deleted with the channel are not modelled.
- Positions of channels are modelled by the order of a list, so gaps in stored positions before a renumbering are not.
- VideoPackets.VideoSender.FragmentAndSend: the buffer of packets kept for retransmission is not modelled.
- VideoBetween.DeliveredAmongOthers: asks that a frame's own packets be ones its sender sent; the other frames' packets may be any.
- Accented letters outside Latin-1 and Latin Extended-A: the code keeps them as they are, and so does the reference table.
- VideoReceiver.StreamReceiver.ProcessDatagram: models one sender's frames; the map over senders, retransmission requests, keyframe requests and the decoders are not modelled, and the decoder's verdict is a parameter.
- Video frame ids are unbounded on the receiving side; the sender's wrap at 2^32 is modelled, a receiver that sees it is not.
- VideoReceiver.StreamReceiver.ProcessFecPacket: a parity packet carries its full payload of 1200 bytes.
- SearchPaging.Execute: the time budgets, and with them the interrupted, partial and error outcomes, are not modelled; messages have ids above 0 and timestamps that grow with them, as the code assumes.
- Query splitting into words and FTS expressions, tokenising, matching and scoring: the index is a predicate and a score.
- SearchWorkers.SearchWorker.Take: the thread's wait is a precondition, and a thread that must wait takes no step in a run.
- RangeHeaders.ParseRange: numbers are exact integers; a JavaScript number above 2^53 rounds, but stays above every size below 2^53.
- SealedRanges.FetchDecrypted: the cipher is any pair of functions that seal with 16 more bytes and open what was sealed; a positive chunk size and a ciphertext below 2^63 are required; thumbnails and pacing are not modelled.
- Uploads.Connection.HandlePatch: the attachment exists, its partial file exists, and the file system fails only by losing the end of what was buffered; Upload-Offset is read as stoll reads it.
- Uploads.Connection.FinishPatch: the 500 answered when flushing or closing the file fails is not modelled.
- Decompression of HTTP heads, keep-alive, deadlines and TLS.
- Rounding of the token buckets' doubles: they are reals, and the clock never runs back.
- Admission and abuse limits of the central server (`src/server/abuse_limits.hpp`): the same bucket and sweep shape as the connection limits.
- The eight-byte size of a UDP cookie and the strength of the random source: cookies are any byte strings, numbered by draw.
