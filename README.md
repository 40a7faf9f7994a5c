# Votes and community membership, verified

This project models the two client-side engines of a community forum, written in Dafny.

The **vote engine** is `onVote`. A user votes +1 or -1 on a post. The engine looks up the user's existing vote on that post and takes one of three branches:

- **New vote:** create a vote record.
- **Same value:** toggle the vote off and delete its record.
- **Opposite value:** flip the vote in place.

It builds one write batch: the vote-record write followed by the post's new `voteStatus`. Only after the batch commits does it install the updated post and vote list in the local cache. `onDeletePost` deletes the post's image if the post has one, deletes the post document, and filters the post out of the cache. It returns whether the image deletion (when there is an image) and the document deletion succeeded.

The **membership engine** is `onJoinOrLeaveCommunity`, `joinCommunity` and `leaveCommunity`. If nobody is signed in, it only opens the login modal. Otherwise it joins or leaves the community:

- **Join:** a batch that sets the user's community snippet and adds `increment(1)` to the community's `numberOfMembers`.
- **Leave:** a batch that deletes the snippet and adds `increment(-1)`.

After a commit succeeds, the snippet is appended to or filtered out of the cached `mySnippets`. After a failure, `error` holds the message. The **snippet cache** (`getMySnippets` and the user-change effect) re-reads the user's snippet collection on sign-in, keeps the old list when the read fails, and clears it on sign-out.

The remote store is a map from document path to a record of fields. A batch is a list of set/update/delete writes that lands all at once or not at all. Whether the transport accepts a commit or a read is an input to the model. The order of the documents a collection read returns is also an input. In addition, the store rejects a batch whose update targets a missing document, with the message `not-found`.

Files:

- `wrappers.dfy`: `Option`, `Result`, `Outcome`.
- `lists.dfy`: the array operations the hooks use (`find`, `findIndex`, `filter`, and assignment at an index that may be -1).
- `document_store.dfy`: the document store, write batches, and the `Firestore` and `WriteBatch` classes.
- `posts.dfy`: the vote engine, `Posts.Vote`, and the `PostsHook` class.
- `community_data.dfy`: the membership engine, the snippet cache, and the `CommunityDataHook` class.

The hook methods follow the code as written, including the two defects under "## Findings". Each finding also has a corrected batch function with its intended property proved.

Points of the code a reader might not expect, all modelled as written:

- `onVote` writes an absolute `voteStatus`, not an increment.
- Join writes to `communitySnippts`, while hydration and leave use `communitySnippets`.
- `onVote` has no signed-in check: `${user?.uid}` becomes the path segment `undefined` (`DocumentStore.UidSegment`).
- The user-change effect clears only `mySnippets`, never `postVotes`.
- Hydration has no guard against overlapping reads.

## Model

| member | source | states |
|---|---|---|
| Lists.FindIndex | src/hooks/usePosts.tsx:76-78 | the result is the first index whose element passes, or -1 exactly when none does |
| Lists.Find | src/hooks/usePosts.tsx:17-19 | the result is absent exactly when no element passes; a present result is the element at the first passing index |
| Lists.Filter | src/hooks/usePosts.tsx:61-63 | the result is no longer than the input; every kept element is in the input and passes; every input element that passes is kept |
| Lists.ReplaceAt | src/hooks/usePosts.tsx:101-104 | the length stays the same; the element at the index becomes the new value and every other element is unchanged; index -1 changes nothing |
| Lists.FilterKeepsAll | src/hooks/useCommunityData.tsx:125-127 | a filter that every element passes returns the list itself |
| Lists.FilterConcat | src/hooks/useCommunityData.tsx:125-127 | filtering a concatenation is concatenating the filtered parts, so order is kept |
| Lists.FilterDropsOne | src/hooks/usePosts.tsx:61-63 | when exactly one element fails, the filter removes just that element |
| DocumentStore.UidSegment | src/hooks/usePosts.tsx:33 | the path segment is the user's uid when someone is signed in, and the text `undefined` otherwise |
| DocumentStore.WrittenValue | src/hooks/useCommunityData.tsx:86 | a put writes its value; an increment writes an integer that exceeds the old one by the amount, a missing or non-integer field counting as 0 |
| DocumentStore.ApplyWrites | src/hooks/usePosts.tsx:86-88 | an update merges its fields into the document: written fields take their new values, all other fields are kept, no field is dropped |
| DocumentStore.ApplyOp | src/hooks/useCommunityData.tsx:79-87 | set replaces the document, update merges into it and fails on a missing document, delete removes it; no other document changes |
| DocumentStore.ApplyBatch | src/hooks/usePosts.tsx:23-98 | an empty batch changes nothing; a batch without updates always applies |
| DocumentStore.CommitBatch | src/hooks/usePosts.tsx:98 | a rejected commit fails with the transport's message; a commit succeeds exactly when the transport accepts it and every write applies; a successful commit yields the store the batch produces; an accepted batch that does not apply fails with `not-found` |
| DocumentStore.ApplyBatchAppend | src/hooks/usePosts.tsx:43-96 | applying a batch with one more write is applying the batch and then that write |
| DocumentStore.ApplyPair | src/hooks/useCommunityData.tsx:72-89 | a two-write batch applies the first write and then the second |
| DocumentStore.ApplyBatchFrame | src/hooks/useCommunityData.tsx:72-89 | a batch leaves every document it does not write exactly as it was |
| DocumentStore.CommitOnlyTouchesBatchPaths | src/hooks/useCommunityData.tsx:120 | a committed batch changes no document outside the paths it writes |
| DocumentStore.CommitEndsWithPut | src/hooks/usePosts.tsx:95-98 | after a committed batch whose last write puts a value into a field, the document holds that value |
| DocumentStore.IncrementsCancel | src/hooks/useCommunityData.tsx:84-118 | `increment(k)` followed by `increment(-k)` restores an integer field and the rest of the document |
| DocumentStore.ListedRecords | src/hooks/useCommunityData.tsx:51-53 | a collection read returns, at each position, the record of the document with that listed id |
| DocumentStore.Firestore.DeleteDocument | src/hooks/usePosts.tsx:126-127 | an accepted delete removes exactly that document; a rejected one changes nothing and returns the message |
| DocumentStore.Firestore.GetDocs | src/hooks/useCommunityData.tsx:51-53 | a listed read returns, in order, the record of each listed document of the collection; a failed read returns its message |
| DocumentStore.WriteBatch.Set | src/hooks/useCommunityData.tsx:79-82 | the batch gains exactly one set write at the end |
| DocumentStore.WriteBatch.Update | src/hooks/useCommunityData.tsx:84-87 | the batch gains exactly one update write at the end |
| DocumentStore.WriteBatch.Delete | src/hooks/useCommunityData.tsx:110-112 | the batch gains exactly one delete write at the end |
| DocumentStore.WriteBatch.Commit | src/hooks/useCommunityData.tsx:89 | on success the store becomes the committed store; on failure the store is unchanged and the error is returned |
| Posts.FindVoteOnPost | src/hooks/usePosts.tsx:17-19 | the user's vote on the post is absent exactly when no vote names the post; a found vote is the first one in the list that names the post |
| Posts.IndexOfVote | src/hooks/usePosts.tsx:76-78 | the first index of the vote with the id, or -1 exactly when no vote has it |
| Posts.IndexOfPost | src/hooks/usePosts.tsx:101-103 | the first index of the post with the id, or -1 exactly when no post has it |
| Posts.WithoutVote | src/hooks/usePosts.tsx:61-63 | no vote with the id remains; every other vote is kept; nothing new is added |
| Posts.WithoutPost | src/hooks/usePosts.tsx:132 | no post with the id remains; every other post is kept; nothing new is added |
| Posts.HasImage | src/hooks/usePosts.tsx:120 | a post has an image exactly when its `imageURL` is present and not empty, as JavaScript truthiness decides |
| Posts.VoteChange | src/hooks/usePosts.tsx:22-90 | for votes in {-1, 1}, `voteChange` is the user's new contribution to the post minus the old one (0 when the vote is toggled off or absent) |
| Posts.VotedStatus | src/hooks/usePosts.tsx:46-74 | the status each branch sets locally is always `voteStatus + voteChange` |
| Posts.Vote | src/hooks/usePosts.tsx:16-104 | a vote changes only the post's `voteStatus`, by `voteChange`; the post list keeps its length; the batch is two writes, the vote document (the existing vote's, or the new id's) and then the post's status, equal to the local post's new status |
| Posts.NewVoteAppends | src/hooks/usePosts.tsx:30-47 | with no vote on the post: a vote `{postId: post.id, communityId, voteValue: vote}` with the new id is appended; the status becomes `voteStatus + vote`; the batch creates that vote document and writes that status |
| Posts.SameVoteRemoves | src/hooks/usePosts.tsx:58-68 | the same value again: the batch deletes the vote document and writes `voteStatus - vote`; no vote with that id remains; over well-formed votes exactly that one entry is removed, the rest keep their order and no vote on the post remains |
| Posts.FlipVoteReplaces | src/hooks/usePosts.tsx:72-91 | the opposite value: the entry at the vote's index becomes the same record with the new value; the length and all other entries are unchanged; the status becomes `voteStatus + 2*vote`; the batch updates the vote document's value and writes that status |
| Posts.FoundVoteIndex | src/hooks/usePosts.tsx:17-78 | the vote `find` returns lies at the index `findIndex` finds for its id; with unique ids that index is the vote's own position |
| Posts.WithoutVoteRemovesOne | src/hooks/usePosts.tsx:61-63 | filtering well-formed votes by one vote's id removes exactly that entry |
| Posts.RemovalLeavesNoVoteOnPost | src/hooks/usePosts.tsx:61-63 | removing the vote on a post from well-formed votes leaves no vote on that post |
| Posts.RemoveKeepsWellFormed | src/hooks/usePosts.tsx:61-63 | removing one entry keeps ids unique and at most one vote per post |
| Posts.RevalueKeepsWellFormed | src/hooks/usePosts.tsx:80-83 | changing one entry's value keeps the votes well-formed |
| Posts.AppendKeepsWellFormed | src/hooks/usePosts.tsx:47 | appending a vote new in id and in post keeps the votes well-formed |
| Posts.VoteKeepsWellFormed | src/hooks/usePosts.tsx:30-91 | over well-formed votes and a fresh vote id, every branch leaves unique ids and at most one vote per post |
| Posts.VoteWritesLocalStatus | src/hooks/usePosts.tsx:22-96 | in every branch, after a committed batch the store's `voteStatus` equals the locally updated post's `voteStatus`, and that post is at the post's index in the local list |
| Posts.VoteReplacesOnlyThePost | src/hooks/usePosts.tsx:101-109 | only the entry at the post's index is replaced; a post missing from the list leaves the list unchanged |
| Posts.VoteStatusTracksContribution | src/hooks/usePosts.tsx:30-91 | for votes in {-1, 1}, the status moves by exactly the change in the user's recorded vote on the post |
| Posts.VoteTwiceRestores | src/hooks/usePosts.tsx:30-91 | voting twice with the same value restores the post and the vote list, leaves no vote on the post, and the second batch deletes the vote document and writes back the original status |
| Posts.VoteThenOppositeFlips | src/hooks/usePosts.tsx:30-91 | voting and then voting the opposite value moves the status by twice the new value and leaves exactly one vote on the post, holding the new value |
| Posts.PutsRestore | src/hooks/usePosts.tsx:96 | writing a field and then writing back its old value restores the document |
| Posts.CreateThenDeleteRestores | src/hooks/usePosts.tsx:43-96 | creating a vote document and writing a status, then deleting it and writing back the old status, restores the store |
| Posts.VoteTwiceOps | src/hooks/usePosts.tsx:30-96 | voting twice with the same value on a post the user had not voted on: the first batch creates the vote document and writes `voteStatus + vote`, the second deletes it and writes back `voteStatus` |
| Posts.VoteTwiceRestoresStore | src/hooks/usePosts.tsx:43-96 | two committed votes with the same value on a post the user had not voted on leave the store exactly as it was |
| Posts.AbsoluteStatusWriteLosesUpdates | src/hooks/usePosts.tsx:96 | with 10 in the store and 5 in the local copy, an upvote commits and the store holds 6 |
| Posts.IntendedVoteOps | src/hooks/usePosts.tsx:95-96 | the corrected batch: the same vote-document write as written, then an `increment` of only `voteStatus` on the same post document, by exactly the change the code applies to the local copy |
| Posts.IntendedVoteAddsToStoredStatus | src/hooks/usePosts.tsx:22-96 | with an increment of `voteChange`, the stored status moves by exactly `voteChange`, whatever the store held |
| Posts.PostsHook.OnVote | src/hooks/usePosts.tsx:13-113 | a successful commit installs the new store, the updated posts and the new votes given by `Vote`; a failed commit leaves the store, `posts` and `postVotes` exactly as before |
| Posts.PostsHook.StageVote | src/hooks/usePosts.tsx:22-92 | the three branches stage exactly the vote-document write of `Vote` into the empty batch and return the post, the votes and the `voteChange` that `Vote` gives |
| Posts.PostsHook.OnDeletePost | src/hooks/usePosts.tsx:117-138 | the result is true exactly when the image deletion (if the post has an image) and the document deletion both succeed; on true the post is filtered out and its document removed; on false nothing changes; `postVotes` never changes |
| Posts.DeletingAbsentPostKeepsList | src/hooks/usePosts.tsx:130-133 | deleting a post whose id is not in the list leaves the list unchanged |
| CommunityData.SnippetOf | src/hooks/useCommunityData.tsx:55-58 | a record's string `communityId` and `imageURL` become the snippet's fields; a missing or non-string field becomes `""` |
| CommunityData.Hydrated | src/hooks/useCommunityData.tsx:55-58 | one snippet per record read, in the same order, each decoded from its record |
| CommunityData.SnippetRoundTrip | src/hooks/useCommunityData.tsx:55-82 | a snippet written to the store reads back as itself |
| CommunityData.NewSnippet | src/hooks/useCommunityData.tsx:74-77 | the new snippet names the community, with its `imageURL`, or `""` when it has none |
| CommunityData.JoinOps | src/hooks/useCommunityData.tsx:79-87 | the join batch: a set of `users/<uid>/communitySnippts/<id>` that reads back as the new snippet, then `increment(1)` on the community's `numberOfMembers` |
| CommunityData.LeaveOps | src/hooks/useCommunityData.tsx:110-118 | the leave batch: a delete of `users/<uid>/communitySnippets/<id>`, then `increment(-1)` on `numberOfMembers` |
| CommunityData.IntendedJoinOps | src/hooks/useCommunityData.tsx:79-87 | the corrected join batch: the same increment, with the snippet set at the path leave deletes |
| CommunityData.Joined | src/hooks/useCommunityData.tsx:92-95 | a join appends exactly one snippet, the new one, at the end, and keeps the earlier ones |
| CommunityData.Left | src/hooks/useCommunityData.tsx:123-128 | a leave removes every snippet of the community, keeps every other one, and adds nothing |
| CommunityData.LeaveRemovesCommunity | src/hooks/useCommunityData.tsx:123-128 | the snippets a leave keeps stay in their order (leaving splits over any cut of the list); a list without that community is unchanged |
| CommunityData.JoinThenLeaveRestoresSnippets | src/hooks/useCommunityData.tsx:92-128 | joining a community absent from `mySnippets` and then leaving it restores `mySnippets` |
| CommunityData.BatchPaths | src/hooks/useCommunityData.tsx:79-118 | the documents each join and leave batch writes: the snippet and the community |
| CommunityData.JoinMissesSnippetsCollection | src/hooks/useCommunityData.tsx:52-80 | the join batch as written writes no document of the collection hydration reads |
| CommunityData.JoinedSnippetIsNotHydrated | src/hooks/useCommunityData.tsx:52-111 | after a committed join the collection hydration reads is unchanged: it lists the same documents, yields the same snippets, and a community absent before is still absent |
| CommunityData.IntendedJoinIsHydrated | src/hooks/useCommunityData.tsx:52-82 | with the snippet set in `communitySnippets`, every read of that collection after the join yields the new snippet |
| CommunityData.JoinThenLeaveStore | src/hooks/useCommunityData.tsx:79-120 | join then leave as written restores `numberOfMembers`, but leaves the joined snippet at the misspelled path; the store is exactly the old store with that stray document and without the deleted one |
| CommunityData.IntendedJoinThenLeaveRestoresStore | src/hooks/useCommunityData.tsx:84-120 | with the corrected join, join then leave of a community without a snippet restores the store exactly |
| CommunityData.CommunityDataHook.OnJoinOrLeaveCommunity | src/hooks/useCommunityData.tsx:28-45 | with nobody signed in, only the modal changes, to open on login; otherwise `isJoined` dispatches to leave by id and its absence to join, with their outcomes |
| CommunityData.CommunityDataHook.JoinCommunity | src/hooks/useCommunityData.tsx:67-101 | on a committed join batch the store is the committed store, and the snippet is appended; on failure the store and `mySnippets` are unchanged and `error` holds the message; `loading` ends false |
| CommunityData.CommunityDataHook.LeaveCommunity | src/hooks/useCommunityData.tsx:103-134 | on a committed leave batch the store is the committed store, and `mySnippets` is filtered; on failure nothing but `error` changes; `loading` ends false |
| CommunityData.CommunityDataHook.GetMySnippets | src/hooks/useCommunityData.tsx:47-65 | a successful read replaces `mySnippets` with the decoded records of `users/<uid>/communitySnippets`; a failed read keeps `mySnippets` and sets `error`; `loading` ends false |
| CommunityData.CommunityDataHook.OnUserChanged | src/hooks/useCommunityData.tsx:136-145 | on sign-out `mySnippets` becomes empty; on sign-in the snippets are read as by `GetMySnippets` |

## Left out

- Storage image deletion (`deleteObject`) is only a step that may fail, given as a `Response`. The image file itself is not modelled.
- Auto-generated document ids are inputs: `newVoteId` in `Posts.Vote` and `Posts.PostsHook.OnVote`.
- Transport, latency and failures are inputs: the commit `Response` and the read `ReadResponse`.
- Asynchrony is not modelled: each handler runs to completion before the next one starts. Two handlers in flight at once, and re-entrant hydration, are not modelled.
- React and Recoil plumbing (`useState`, `useEffect`, `useRecoilState`, `useAuthState`) is not modelled. The cache is the fields of the hook classes, and the current user is a parameter.
- `console.error` logging is not modelled.
- The comment asking for a user check in `onVote` is not behaviour and is not modelled.
- `src/components/Modal/Auth/OAuthButtons.tsx`, `src/components/Navbar/Navbar.tsx` and `src/pages/_app.tsx` hold no core logic and are not part of this model.
- CommunityData.SnippetOf: decodes every read record to a two-field snippet. A missing or non-string field reads as `""`, and extra fields are dropped. The code instead casts the raw record, which would keep `undefined` values and extra fields.
- DocumentStore.CommitBatch: a batch whose update targets a missing document fails with the code `not-found`. Firestore's `error.message`, which `joinCommunity` and `leaveCommunity` store in `error`, is a sentence naming the document, not the code.
- Posts.PostsHook.OnVote: `onVote` swallows commit errors with no other effect. The model does the same and keeps no error state.

## Findings

| source | as written | input that shows it | evidently intended | confidence | as-written member | corrected member |
|---|---|---|---|---|---|---|
| src/hooks/useCommunityData.tsx:80 | join sets the snippet in `users/<uid>/communitySnippts`, while hydration (:52) reads and leave (:111) deletes `users/<uid>/communitySnippets` | join community `c` when the user has no snippet for it, then sign in again: hydration does not return `c`; join then leave leaves a stray snippet document | the snippet goes to `communitySnippets` | not executed | CommunityData.JoinedSnippetIsNotHydrated, CommunityData.JoinThenLeaveStore | CommunityData.IntendedJoinIsHydrated, CommunityData.IntendedJoinThenLeaveRestoresStore |
| src/hooks/usePosts.tsx:96 | the post's `voteStatus` is written as the local copy's `voteStatus + voteChange`, an absolute value | the store holds 10, the local copy holds 5, and the user upvotes: the store ends at 6 and the other votes are lost | an additive `increment(voteChange)` on `voteStatus` | not executed | Posts.AbsoluteStatusWriteLosesUpdates | Posts.IntendedVoteOps, Posts.IntendedVoteAddsToStoredStatus |
