/**
 * The vote engine and post removal of the posts hook: a vote is looked up,
 * turned into one of three transitions (new vote, toggle off, flip), written
 * to the store as one batch, and applied to the local posts and post votes
 * only after the batch has committed.
 */
module Posts {
  import opened Wrappers
  import opened Lists
  import opened DocumentStore

  datatype Post = Post(id: string, creatorId: string, voteStatus: int, imageURL: Option<string>)

  /** The signed-in user's vote on one post; `voteValue` is 1 or -1 in well-behaved callers. */
  datatype PostVote = PostVote(id: string, postId: string, communityId: string, voteValue: int)

  function PostRef(postId: string): Path
  {
    ["posts", postId]
  }

  function PostVoteRef(uid: string, voteId: string): Path
  {
    ["users", uid, "postVotes", voteId]
  }

  /** The document `batch.set` writes for a new vote: every field of the record. */
  function VoteFields(v: PostVote): Fields
  {
    map["id" := StrValue(v.id), "postId" := StrValue(v.postId),
        "communityId" := StrValue(v.communityId), "voteValue" := IntValue(v.voteValue)]
  }

  /** The update of the post document: the new absolute `voteStatus`. */
  function VoteStatusWrite(status: int): Writes
  {
    map["voteStatus" := Put(IntValue(status))]
  }

  /** `postVotes.find(vote => vote.postId === postId)` */
  function FindVoteOnPost(votes: seq<PostVote>, postId: string): (r: Option<PostVote>)
    ensures r.None? <==> forall j :: 0 <= j < |votes| ==> votes[j].postId != postId
    ensures r.Some? ==> r.value in votes && r.value.postId == postId
    ensures r.Some? ==>
      exists k :: 0 <= k < |votes| && votes[k] == r.value && forall j :: 0 <= j < k ==> votes[j].postId != postId
  {
    Find(votes, (v: PostVote) => v.postId == postId)
  }

  /** `postVotes.findIndex(vote => vote.id === voteId)` */
  function IndexOfVote(votes: seq<PostVote>, voteId: string): (i: int)
    ensures -1 <= i < |votes|
    ensures 0 <= i ==> votes[i].id == voteId && forall j :: 0 <= j < i ==> votes[j].id != voteId
    ensures i == -1 <==> forall j :: 0 <= j < |votes| ==> votes[j].id != voteId
  {
    FindIndex(votes, (v: PostVote) => v.id == voteId)
  }

  /** `posts.findIndex(item => item.id === postId)` */
  function IndexOfPost(posts: seq<Post>, postId: string): (i: int)
    ensures -1 <= i < |posts|
    ensures 0 <= i ==> posts[i].id == postId && forall j :: 0 <= j < i ==> posts[j].id != postId
    ensures i == -1 <==> forall j :: 0 <= j < |posts| ==> posts[j].id != postId
  {
    FindIndex(posts, (p: Post) => p.id == postId)
  }

  /** `postVotes.filter(vote => vote.id !== voteId)` */
  function WithoutVote(votes: seq<PostVote>, voteId: string): (r: seq<PostVote>)
    ensures forall j :: 0 <= j < |r| ==> r[j] in votes && r[j].id != voteId
    ensures forall j :: 0 <= j < |votes| && votes[j].id != voteId ==> votes[j] in r
  {
    Filter(votes, (v: PostVote) => v.id != voteId)
  }

  /** `posts.filter(item => item.id !== postId)` */
  function WithoutPost(posts: seq<Post>, postId: string): (r: seq<Post>)
    ensures forall j :: 0 <= j < |r| ==> r[j] in posts && r[j].id != postId
    ensures forall j :: 0 <= j < |posts| && posts[j].id != postId ==> posts[j] in r
  {
    Filter(posts, (p: Post) => p.id != postId)
  }

  /** `if (post.imageURL)`: present and not the empty string. */
  function HasImage(post: Post): (b: bool)
    ensures post.imageURL.None? || post.imageURL == Some("") ==> !b
    ensures post.imageURL.Some? && post.imageURL.value != "" ==> b
  {
    post.imageURL.Some? && post.imageURL.value != ""
  }

  /** `voteChange`: the amount added to the status written to the store. */
  function VoteChange(existing: Option<PostVote>, vote: int): (d: int)
    ensures ValidVoteValue(vote) && (existing.Some? ==> ValidVoteValue(existing.value.voteValue)) ==>
      d == (if existing.Some? && existing.value.voteValue == vote then 0 else vote)
           - (if existing.Some? then existing.value.voteValue else 0)
  {
    match existing
    case None => vote
    case Some(e) => if e.voteValue == vote then -vote else 2 * vote
  }

  /** `updatedPost.voteStatus`, computed separately in each branch. */
  function VotedStatus(voteStatus: int, existing: Option<PostVote>, vote: int): (r: int)
    ensures r == voteStatus + VoteChange(existing, vote)
  {
    match existing
    case None => voteStatus + vote
    case Some(e) => if e.voteValue == vote then voteStatus - vote else voteStatus + 2 * vote
  }

  /** What one vote does: the updated post, the new local lists, and the batch. */
  datatype VoteEffect = VoteEffect(post: Post, posts: seq<Post>, postVotes: seq<PostVote>, ops: seq<Op>)

  /**
   * The vote `vote` of user segment `uid` on `post` from community `communityId`,
   * given the local `posts` and `votes`; `newVoteId` is the id the store
   * generates for a new vote document.
   */
  function Vote(posts: seq<Post>, votes: seq<PostVote>, post: Post, vote: int, communityId: string,
                uid: string, newVoteId: string): (r: VoteEffect)
    ensures r.post == post.(voteStatus := r.post.voteStatus)
    ensures r.post.voteStatus == post.voteStatus + VoteChange(FindVoteOnPost(votes, post.id), vote)
    ensures |r.posts| == |posts|
    ensures |r.ops| == 2 && r.ops[1] == UpdateDoc(PostRef(post.id), VoteStatusWrite(r.post.voteStatus))
    ensures var existing := FindVoteOnPost(votes, post.id);
      r.ops[0].path == PostVoteRef(uid, if existing.Some? then existing.value.id else newVoteId)
  {
    var existing := FindVoteOnPost(votes, post.id);
    var updated := post.(voteStatus := VotedStatus(post.voteStatus, existing, vote));
    var statusOp := UpdateDoc(PostRef(post.id), VoteStatusWrite(post.voteStatus + VoteChange(existing, vote)));
    var newPosts := ReplaceAt(posts, IndexOfPost(posts, post.id), updated);
    match existing
    case None =>
      var newVote := PostVote(newVoteId, post.id, communityId, vote);
      VoteEffect(updated, newPosts, votes + [newVote], [SetDoc(PostVoteRef(uid, newVoteId), VoteFields(newVote)), statusOp])
    case Some(e) =>
      if e.voteValue == vote then
        VoteEffect(updated, newPosts, WithoutVote(votes, e.id), [DeleteDoc(PostVoteRef(uid, e.id)), statusOp])
      else
        VoteEffect(updated, newPosts, ReplaceAt(votes, IndexOfVote(votes, e.id), e.(voteValue := vote)),
                   [UpdateDoc(PostVoteRef(uid, e.id), map["voteValue" := Put(IntValue(vote))]), statusOp])
  }

  /** Vote ids are unique and there is at most one vote per post. */
  predicate WellFormedVotes(votes: seq<PostVote>)
  {
    forall i, j :: 0 <= i < j < |votes| ==> votes[i].id != votes[j].id && votes[i].postId != votes[j].postId
  }

  predicate FreshVoteId(votes: seq<PostVote>, voteId: string)
  {
    forall j :: 0 <= j < |votes| ==> votes[j].id != voteId
  }

  predicate ValidVoteValue(v: int)
  {
    v == 1 || v == -1
  }

  /** The user's contribution to a post's `voteStatus`, as recorded in the local votes. */
  function Contribution(votes: seq<PostVote>, postId: string): int
  {
    match FindVoteOnPost(votes, postId)
    case None => 0
    case Some(v) => v.voteValue
  }

  /** With no vote on the post, a new vote is appended and the vote is added. */
  lemma NewVoteAppends(posts: seq<Post>, votes: seq<PostVote>, post: Post, vote: int, communityId: string,
                       uid: string, newVoteId: string)
    requires FindVoteOnPost(votes, post.id).None?
    ensures var effect := Vote(posts, votes, post, vote, communityId, uid, newVoteId);
      var newVote := PostVote(newVoteId, post.id, communityId, vote);
      && effect.postVotes == votes + [newVote]
      && effect.post == post.(voteStatus := post.voteStatus + vote)
      && effect.ops == [SetDoc(PostVoteRef(uid, newVoteId), VoteFields(newVote)),
                        UpdateDoc(PostRef(post.id), VoteStatusWrite(post.voteStatus + vote))]
  {
  }

  /** Removing a vote by id from well-formed votes removes exactly that one entry. */
  lemma WithoutVoteRemovesOne(votes: seq<PostVote>, k: int)
    requires WellFormedVotes(votes)
    requires 0 <= k < |votes|
    ensures WithoutVote(votes, votes[k].id) == votes[..k] + votes[k + 1..]
  {
    FilterDropsOne(votes, k, (v: PostVote) => v.id != votes[k].id);
  }

  /** Removing one entry keeps the votes well-formed. */
  lemma RemoveKeepsWellFormed(votes: seq<PostVote>, k: int)
    requires WellFormedVotes(votes)
    requires 0 <= k < |votes|
    ensures WellFormedVotes(votes[..k] + votes[k + 1..])
  {
  }

  /** Changing the value of one entry keeps the votes well-formed. */
  lemma RevalueKeepsWellFormed(votes: seq<PostVote>, k: int, value: int)
    requires WellFormedVotes(votes)
    requires 0 <= k < |votes|
    ensures WellFormedVotes(votes[k := votes[k].(voteValue := value)])
  {
  }

  /**
   * Voting again with the same value deletes the vote document, removes that
   * vote (by id) from the local votes and subtracts the vote; with well-formed
   * votes exactly that entry goes and no vote on the post remains.
   */
  lemma SameVoteRemoves(posts: seq<Post>, votes: seq<PostVote>, post: Post, vote: int, communityId: string,
                        uid: string, newVoteId: string, e: PostVote)
    requires FindVoteOnPost(votes, post.id) == Some(e) && e.voteValue == vote
    ensures var effect := Vote(posts, votes, post, vote, communityId, uid, newVoteId);
      && effect.ops == [DeleteDoc(PostVoteRef(uid, e.id)), UpdateDoc(PostRef(post.id), VoteStatusWrite(post.voteStatus - vote))]
      && effect.post == post.(voteStatus := post.voteStatus - vote)
      && effect.postVotes == WithoutVote(votes, e.id)
      && (forall j :: 0 <= j < |effect.postVotes| ==> effect.postVotes[j].id != e.id)
    ensures WellFormedVotes(votes) ==>
      var effect := Vote(posts, votes, post, vote, communityId, uid, newVoteId);
      var k := FindIndex(votes, (v: PostVote) => v.postId == post.id);
      && 0 <= k < |votes| && votes[k] == e
      && effect.postVotes == votes[..k] + votes[k + 1..]
      && FindVoteOnPost(effect.postVotes, post.id).None?
  {
    var effect := Vote(posts, votes, post, vote, communityId, uid, newVoteId);
    assert effect.postVotes == WithoutVote(votes, e.id);
    if WellFormedVotes(votes) {
      var k := FindIndex(votes, (v: PostVote) => v.postId == post.id);
      assert votes[k] == e;
      WithoutVoteRemovesOne(votes, k);
      RemovalLeavesNoVoteOnPost(votes, k);
    }
  }

  /** Removing the vote on a post from well-formed votes leaves no vote on that post. */
  lemma RemovalLeavesNoVoteOnPost(votes: seq<PostVote>, k: int)
    requires WellFormedVotes(votes)
    requires 0 <= k < |votes|
    ensures FindVoteOnPost(votes[..k] + votes[k + 1..], votes[k].postId).None?
  {
  }

  /** The vote `find` returns is at the index `findIndex` finds for its id, when ids are unique. */
  lemma FoundVoteIndex(votes: seq<PostVote>, postId: string, e: PostVote)
    requires FindVoteOnPost(votes, postId) == Some(e)
    ensures var k := IndexOfVote(votes, e.id); 0 <= k < |votes| && votes[k].id == e.id
    ensures WellFormedVotes(votes) ==>
      && IndexOfVote(votes, e.id) == FindIndex(votes, (v: PostVote) => v.postId == postId)
      && votes[IndexOfVote(votes, e.id)] == e
  {
  }

  /**
   * Voting with the opposite value updates the vote document's value,
   * replaces the entry at the vote's index by the same record with the new
   * value, keeps the length and every other entry, and adds twice the vote.
   */
  lemma FlipVoteReplaces(posts: seq<Post>, votes: seq<PostVote>, post: Post, vote: int, communityId: string,
                         uid: string, newVoteId: string, e: PostVote)
    requires FindVoteOnPost(votes, post.id) == Some(e) && e.voteValue != vote
    ensures var effect := Vote(posts, votes, post, vote, communityId, uid, newVoteId);
      var k := IndexOfVote(votes, e.id);
      && 0 <= k < |votes| && votes[k].id == e.id
      && |effect.postVotes| == |votes|
      && effect.postVotes[k] == e.(voteValue := vote)
      && (forall j :: 0 <= j < |votes| && j != k ==> effect.postVotes[j] == votes[j])
      && effect.post == post.(voteStatus := post.voteStatus + 2 * vote)
      && effect.ops == [UpdateDoc(PostVoteRef(uid, e.id), map["voteValue" := Put(IntValue(vote))]),
                        UpdateDoc(PostRef(post.id), VoteStatusWrite(post.voteStatus + 2 * vote))]
    ensures WellFormedVotes(votes) ==> votes[IndexOfVote(votes, e.id)] == e
  {
  }

  /**
   * After a committed vote the store's `voteStatus` of the post is the
   * `voteStatus` of the locally updated post, and that post sits at the
   * post's index in the local list.
   */
  lemma VoteWritesLocalStatus(docs: Docs, posts: seq<Post>, votes: seq<PostVote>, post: Post, vote: int,
                              communityId: string, uid: string, newVoteId: string, response: Response)
    requires CommitBatch(docs, Vote(posts, votes, post, vote, communityId, uid, newVoteId).ops, response).Success?
    ensures var effect := Vote(posts, votes, post, vote, communityId, uid, newVoteId);
      var after := CommitBatch(docs, effect.ops, response).value;
      && PostRef(post.id) in after && "voteStatus" in after[PostRef(post.id)]
      && after[PostRef(post.id)]["voteStatus"] == IntValue(effect.post.voteStatus)
      && (0 <= IndexOfPost(posts, post.id) ==> effect.posts[IndexOfPost(posts, post.id)] == effect.post)
  {
    var effect := Vote(posts, votes, post, vote, communityId, uid, newVoteId);
    var statusWrite := effect.ops[1].writes;
    assert effect.ops == [effect.ops[0]] + [UpdateDoc(PostRef(post.id), statusWrite)];
    CommitEndsWithPut(docs, [effect.ops[0]], PostRef(post.id), statusWrite, "voteStatus", response);
  }

  /** Only the entry at the post's index is replaced; a post missing from the list changes nothing. */
  lemma VoteReplacesOnlyThePost(posts: seq<Post>, votes: seq<PostVote>, post: Post, vote: int,
                                communityId: string, uid: string, newVoteId: string)
    ensures var effect := Vote(posts, votes, post, vote, communityId, uid, newVoteId);
      var i := IndexOfPost(posts, post.id);
      && |effect.posts| == |posts|
      && (forall j :: 0 <= j < |posts| && j != i ==> effect.posts[j] == posts[j])
      && (i == -1 ==> effect.posts == posts)
      && (0 <= i ==> posts[i].id == post.id && effect.posts[i] == effect.post)
  {
  }

  /** Appending a vote that is new in id and in post keeps the votes well-formed. */
  lemma AppendKeepsWellFormed(votes: seq<PostVote>, v: PostVote)
    requires WellFormedVotes(votes)
    requires forall j :: 0 <= j < |votes| ==> votes[j].id != v.id && votes[j].postId != v.postId
    ensures WellFormedVotes(votes + [v])
  {
  }

  /** A vote keeps vote ids unique and at most one vote per post. */
  lemma VoteKeepsWellFormed(posts: seq<Post>, votes: seq<PostVote>, post: Post, vote: int, communityId: string,
                            uid: string, newVoteId: string)
    requires WellFormedVotes(votes)
    requires FreshVoteId(votes, newVoteId)
    ensures WellFormedVotes(Vote(posts, votes, post, vote, communityId, uid, newVoteId).postVotes)
  {
    match FindVoteOnPost(votes, post.id)
    case None =>
      AppendKeepsWellFormed(votes, PostVote(newVoteId, post.id, communityId, vote));
    case Some(e) =>
      var k := IndexOfVote(votes, e.id);
      FoundVoteIndex(votes, post.id, e);
      if e.voteValue == vote {
        WithoutVoteRemovesOne(votes, k);
        RemoveKeepsWellFormed(votes, k);
      } else {
        RevalueKeepsWellFormed(votes, k, vote);
      }
  }

  /**
   * The change of a post's `voteStatus` is the change of the user's
   * contribution to it: the status keeps counting the user's vote exactly once.
   */
  lemma VoteStatusTracksContribution(posts: seq<Post>, votes: seq<PostVote>, post: Post, vote: int,
                                     communityId: string, uid: string, newVoteId: string)
    requires WellFormedVotes(votes)
    requires forall j :: 0 <= j < |votes| ==> ValidVoteValue(votes[j].voteValue)
    requires ValidVoteValue(vote)
    ensures var effect := Vote(posts, votes, post, vote, communityId, uid, newVoteId);
      effect.post.voteStatus - post.voteStatus == Contribution(effect.postVotes, post.id) - Contribution(votes, post.id)
  {
    var onPost := (v: PostVote) => v.postId == post.id;
    var effect := Vote(posts, votes, post, vote, communityId, uid, newVoteId);
    match FindVoteOnPost(votes, post.id)
    case None =>
      var r := votes + [PostVote(newVoteId, post.id, communityId, vote)];
      FindIndexIs(r, onPost, |votes|);
    case Some(e) =>
      var k := IndexOfVote(votes, e.id);
      FoundVoteIndex(votes, post.id, e);
      if e.voteValue == vote {
        SameVoteRemoves(posts, votes, post, vote, communityId, uid, newVoteId, e);
      } else {
        var r := votes[k := e.(voteValue := vote)];
        FindIndexIs(r, onPost, k);
      }
  }

  /**
   * Voting twice with the same value on a post the user had not voted on
   * restores the post, the local votes and the local posts (the post at its
   * index), and the second batch writes back the original `voteStatus`.
   */
  lemma VoteTwiceRestores(posts: seq<Post>, votes: seq<PostVote>, post: Post, vote: int, communityId: string,
                          uid: string, newVoteId: string, anotherId: string)
    requires FindVoteOnPost(votes, post.id).None?
    requires FreshVoteId(votes, newVoteId)
    ensures var first := Vote(posts, votes, post, vote, communityId, uid, newVoteId);
      var second := Vote(first.posts, first.postVotes, first.post, vote, communityId, uid, anotherId);
      && second.post == post
      && second.postVotes == votes
      && FindVoteOnPost(second.postVotes, post.id).None?
      && second.posts == ReplaceAt(posts, IndexOfPost(posts, post.id), post)
      && second.ops == [DeleteDoc(PostVoteRef(uid, newVoteId)), UpdateDoc(PostRef(post.id), VoteStatusWrite(post.voteStatus))]
  {
    var first := Vote(posts, votes, post, vote, communityId, uid, newVoteId);
    var newVote := PostVote(newVoteId, post.id, communityId, vote);
    assert first.postVotes == votes + [newVote];
    FindIndexIs(votes + [newVote], (v: PostVote) => v.postId == post.id, |votes|);
    assert FindVoteOnPost(first.postVotes, post.id) == Some(newVote);
    var keep := (v: PostVote) => v.id != newVoteId;
    FilterConcat(votes, [newVote], keep);
    FilterKeepsAll(votes, keep);
    assert Filter([newVote], keep) == [];
    var i := IndexOfPost(posts, post.id);
    if 0 <= i {
      FindIndexIs(first.posts, (p: Post) => p.id == post.id, i);
    }
  }

  /**
   * Voting and then voting the opposite value flips the vote: the status
   * moves by twice the new value relative to the first vote, and exactly one
   * vote on the post remains, holding the new value.
   */
  lemma VoteThenOppositeFlips(posts: seq<Post>, votes: seq<PostVote>, post: Post, vote: int, communityId: string,
                              uid: string, newVoteId: string, anotherId: string)
    requires FindVoteOnPost(votes, post.id).None?
    requires FreshVoteId(votes, newVoteId)
    requires ValidVoteValue(vote)
    ensures var first := Vote(posts, votes, post, vote, communityId, uid, newVoteId);
      var second := Vote(first.posts, first.postVotes, first.post, -vote, communityId, uid, anotherId);
      var flipped := PostVote(newVoteId, post.id, communityId, -vote);
      && second.post.voteStatus == first.post.voteStatus + 2 * -vote
      && second.postVotes == votes + [flipped]
      && flipped in second.postVotes
      && (forall j :: 0 <= j < |second.postVotes| && second.postVotes[j].postId == post.id ==> second.postVotes[j] == flipped)
  {
    var first := Vote(posts, votes, post, vote, communityId, uid, newVoteId);
    var newVote := PostVote(newVoteId, post.id, communityId, vote);
    assert first.postVotes == votes + [newVote];
    FindIndexIs(votes + [newVote], (v: PostVote) => v.postId == post.id, |votes|);
    FindIndexIs(votes + [newVote], (v: PostVote) => v.id == newVoteId, |votes|);
    var second := Vote(first.posts, first.postVotes, first.post, -vote, communityId, uid, anotherId);
    assert second.postVotes == votes + [PostVote(newVoteId, post.id, communityId, -vote)];
  }

  /** Writing a field and then writing the value it held before restores the document. */
  lemma PutsRestore(doc: Fields, f: string, a: Value, b: Value)
    requires f in doc && doc[f] == b
    ensures ApplyWrites(ApplyWrites(doc, map[f := Put(a)]), map[f := Put(b)]) == doc
  {
  }

  /**
   * Two committed votes with the same value on a post the user had not voted
   * on leave the store as it was: the vote document is created and deleted
   * again, and the post's `voteStatus` is written back.
   */
  lemma VoteTwiceRestoresStore(docs: Docs, posts: seq<Post>, votes: seq<PostVote>, post: Post, vote: int,
                               communityId: string, uid: string, newVoteId: string, anotherId: string,
                               r1: Response, r2: Response)
    requires FindVoteOnPost(votes, post.id).None?
    requires FreshVoteId(votes, newVoteId)
    requires PostVoteRef(uid, newVoteId) !in docs
    requires PostRef(post.id) in docs && "voteStatus" in docs[PostRef(post.id)]
    requires docs[PostRef(post.id)]["voteStatus"] == IntValue(post.voteStatus)
    requires CommitBatch(docs, Vote(posts, votes, post, vote, communityId, uid, newVoteId).ops, r1).Success?
    requires var first := Vote(posts, votes, post, vote, communityId, uid, newVoteId);
      CommitBatch(CommitBatch(docs, first.ops, r1).value,
                  Vote(first.posts, first.postVotes, first.post, vote, communityId, uid, anotherId).ops, r2).Success?
    ensures var first := Vote(posts, votes, post, vote, communityId, uid, newVoteId);
      var second := Vote(first.posts, first.postVotes, first.post, vote, communityId, uid, anotherId);
      CommitBatch(CommitBatch(docs, first.ops, r1).value, second.ops, r2).value == docs
  {
    var first := Vote(posts, votes, post, vote, communityId, uid, newVoteId);
    var second := Vote(first.posts, first.postVotes, first.post, vote, communityId, uid, anotherId);
    var vref, pref := PostVoteRef(uid, newVoteId), PostRef(post.id);
    var fields := VoteFields(PostVote(newVoteId, post.id, communityId, vote));
    VoteTwiceOps(posts, votes, post, vote, communityId, uid, newVoteId, anotherId);
    CreateThenDeleteRestores(docs, vref, pref, fields, post.voteStatus + vote, post.voteStatus, first.ops, second.ops);
  }

  /** The two batches of voting twice with the same value on a post the user had not voted on. */
  lemma VoteTwiceOps(posts: seq<Post>, votes: seq<PostVote>, post: Post, vote: int, communityId: string,
                     uid: string, newVoteId: string, anotherId: string)
    requires FindVoteOnPost(votes, post.id).None?
    requires FreshVoteId(votes, newVoteId)
    ensures var first := Vote(posts, votes, post, vote, communityId, uid, newVoteId);
      var second := Vote(first.posts, first.postVotes, first.post, vote, communityId, uid, anotherId);
      var vref, pref := PostVoteRef(uid, newVoteId), PostRef(post.id);
      && first.ops == [SetDoc(vref, VoteFields(PostVote(newVoteId, post.id, communityId, vote))),
                       UpdateDoc(pref, VoteStatusWrite(post.voteStatus + vote))]
      && second.ops == [DeleteDoc(vref), UpdateDoc(pref, VoteStatusWrite(post.voteStatus))]
  {
    NewVoteAppends(posts, votes, post, vote, communityId, uid, newVoteId);
    VoteTwiceRestores(posts, votes, post, vote, communityId, uid, newVoteId, anotherId);
  }

  /**
   * Creating a document and writing a status, then deleting that document
   * and writing back the old status, leaves the store as it was.
   */
  lemma CreateThenDeleteRestores(docs: Docs, created: Path, target: Path, fields: Fields, status: int, previous: int,
                                  first: seq<Op>, second: seq<Op>)
    requires created != target && created !in docs
    requires target in docs && "voteStatus" in docs[target] && docs[target]["voteStatus"] == IntValue(previous)
    requires first == [SetDoc(created, fields), UpdateDoc(target, VoteStatusWrite(status))]
    requires second == [DeleteDoc(created), UpdateDoc(target, VoteStatusWrite(previous))]
    ensures ApplyBatch(docs, first).Some? && ApplyBatch(ApplyBatch(docs, first).value, second) == Some(docs)
  {
    var d1 := docs[created := fields][target := ApplyWrites(docs[target], VoteStatusWrite(status))];
    ApplyPair(docs, SetDoc(created, fields), UpdateDoc(target, VoteStatusWrite(status)));
    assert ApplyBatch(docs, [SetDoc(created, fields), UpdateDoc(target, VoteStatusWrite(status))]) == Some(d1);
    var d2 := (d1 - {created})[target := ApplyWrites(d1[target], VoteStatusWrite(previous))];
    ApplyPair(d1, DeleteDoc(created), UpdateDoc(target, VoteStatusWrite(previous)));
    assert ApplyBatch(d1, [DeleteDoc(created), UpdateDoc(target, VoteStatusWrite(previous))]) == Some(d2);
    PutsRestore(docs[target], "voteStatus", IntValue(status), IntValue(previous));
    assert d2.Keys == docs.Keys;
    assert forall q :: q in docs ==> d2[q] == docs[q];
    assert d2 == docs;
  }

  /**
   * The batch as the code builds it writes the local copy's absolute status:
   * when the store holds a status the local copy has not seen (10 against a
   * local 5), an upvote stores 6 and the other contributions are lost.
   */
  lemma AbsoluteStatusWriteLosesUpdates()
    ensures var post := Post("p", "author", 5, None);
      var docs := map[PostRef("p") := map["voteStatus" := IntValue(10)]];
      var after := CommitBatch(docs, Vote([post], [], post, 1, "c", "u", "v").ops, Accepted);
      && after.Success?
      && after.value[PostRef("p")]["voteStatus"] == IntValue(6)
  {
  }

  /**
   * The batch the code evidently intends: the vote write, then `increment(voteChange)` on the post.
   * It writes the same two documents as the batch as written, and its increment is exactly the
   * change the as-written code applies to the local copy's `voteStatus`.
   */
  function IntendedVoteOps(votes: seq<PostVote>, post: Post, vote: int, communityId: string,
                           uid: string, newVoteId: string): (ops: seq<Op>)
    ensures var asWritten := Vote([], votes, post, vote, communityId, uid, newVoteId);
      && |ops| == 2
      && ops[0] == asWritten.ops[0]
      && ops[1].UpdateDoc? && ops[1].path == asWritten.ops[1].path
      && ops[1].writes.Keys == {"voteStatus"}
      && ops[1].writes["voteStatus"] == Increment(asWritten.post.voteStatus - post.voteStatus)
  {
    var asWritten := Vote([], votes, post, vote, communityId, uid, newVoteId).ops;
    [asWritten[0], UpdateDoc(PostRef(post.id), map["voteStatus" := Increment(VoteChange(FindVoteOnPost(votes, post.id), vote))])]
  }

  /** With increments the store's status moves by exactly `voteChange`, whatever it held. */
  lemma IntendedVoteAddsToStoredStatus(docs: Docs, votes: seq<PostVote>, post: Post, vote: int,
                                       communityId: string, uid: string, newVoteId: string, stored: int)
    requires PostRef(post.id) in docs && "voteStatus" in docs[PostRef(post.id)]
    requires docs[PostRef(post.id)]["voteStatus"] == IntValue(stored)
    requires ApplyBatch(docs, IntendedVoteOps(votes, post, vote, communityId, uid, newVoteId)).Some?
    ensures var after := ApplyBatch(docs, IntendedVoteOps(votes, post, vote, communityId, uid, newVoteId)).value;
      && PostRef(post.id) in after && "voteStatus" in after[PostRef(post.id)]
      && after[PostRef(post.id)]["voteStatus"] == IntValue(stored + VoteChange(FindVoteOnPost(votes, post.id), vote))
  {
    var ops := IntendedVoteOps(votes, post, vote, communityId, uid, newVoteId);
    var pref := PostRef(post.id);
    assert ops[0].path != pref;
    assert ops == [ops[0]] + [ops[1]];
    ApplyBatchAppend(docs, [ops[0]], ops[1]);
    var d1 := ApplyOp(docs, ops[0]).value;
    assert ApplyBatch(docs, [ops[0]]) == Some(d1);
    assert d1[pref] == docs[pref];
  }

  /** The local state of the posts hook: the posts atom's `posts` and `postVotes`. */
  class PostsHook {
    var posts: seq<Post>
    var postVotes: seq<PostVote>

    constructor (posts: seq<Post>, postVotes: seq<PostVote>)
      ensures this.posts == posts && this.postVotes == postVotes
    {
      this.posts := posts;
      this.postVotes := postVotes;
    }

    /**
     * `onVote(post, vote, communityId)` for the signed-in `user`: builds the
     * batch, commits it, and only on success installs the new posts and votes.
     * A failed commit is caught and logged, so nothing changes.
     */
    method OnVote(post: Post, vote: int, communityId: string, user: Option<string>, newVoteId: string,
                  db: Firestore, response: Response)
      modifies this, db
      ensures var effect := Vote(old(posts), old(postVotes), post, vote, communityId, UidSegment(user), newVoteId);
        var c := CommitBatch(old(db.docs), effect.ops, response);
        && (c.Success? ==> db.docs == c.value && posts == effect.posts && postVotes == effect.postVotes)
        && (c.Failure? ==> db.docs == old(db.docs) && posts == old(posts) && postVotes == old(postVotes))
    {
      var uid := UidSegment(user);
      ghost var effect := Vote(posts, postVotes, post, vote, communityId, uid, newVoteId);
      var batch := new WriteBatch();
      var updatedPost, updatedPostVotes, voteChange := StageVote(batch, post, vote, communityId, uid, newVoteId);
      batch.Update(PostRef(post.id), VoteStatusWrite(post.voteStatus + voteChange));
      assert batch.ops == [effect.ops[0], effect.ops[1]];
      var committed := batch.Commit(db, response);
      if committed.Fail? {
        return;
      }
      var postIdx := IndexOfPost(posts, post.id);
      posts, postVotes := ReplaceAt(posts, postIdx, updatedPost), updatedPostVotes;
    }

    /**
     * The branch of `onVote` on the user's existing vote: adds the write of
     * the vote document to the empty `batch` and computes the updated post,
     * the updated votes and `voteChange`.
     */
    method StageVote(batch: WriteBatch, post: Post, vote: int, communityId: string, uid: string, newVoteId: string)
      returns (updatedPost: Post, updatedPostVotes: seq<PostVote>, voteChange: int)
      requires batch.ops == []
      modifies batch
      ensures var effect := Vote(posts, postVotes, post, vote, communityId, uid, newVoteId);
        && batch.ops == [effect.ops[0]]
        && updatedPost == effect.post && updatedPostVotes == effect.postVotes
        && voteChange == VoteChange(FindVoteOnPost(postVotes, post.id), vote)
    {
      var voteStatus := post.voteStatus;
      var existingVote := FindVoteOnPost(postVotes, post.id);
      voteChange := vote;
      updatedPost := post;
      updatedPostVotes := postVotes;
      if existingVote.None? {
        var newVote := PostVote(newVoteId, post.id, communityId, vote);
        batch.Set(PostVoteRef(uid, newVoteId), VoteFields(newVote));
        updatedPost := updatedPost.(voteStatus := voteStatus + vote);
        updatedPostVotes := updatedPostVotes + [newVote];
        NewVoteAppends(posts, postVotes, post, vote, communityId, uid, newVoteId);
      } else {
        var existing := existingVote.value;
        var postVoteRef := PostVoteRef(uid, existing.id);
        if existing.voteValue == vote {
          updatedPost := updatedPost.(voteStatus := voteStatus - vote);
          updatedPostVotes := WithoutVote(updatedPostVotes, existing.id);
          batch.Delete(postVoteRef);
          voteChange := voteChange * -1;
          SameVoteRemoves(posts, postVotes, post, vote, communityId, uid, newVoteId, existing);
        } else {
          updatedPost := updatedPost.(voteStatus := voteStatus + 2 * vote);
          var voteIdx := IndexOfVote(postVotes, existing.id);
          updatedPostVotes := ReplaceAt(updatedPostVotes, voteIdx, existing.(voteValue := vote));
          batch.Update(postVoteRef, map["voteValue" := Put(IntValue(vote))]);
          voteChange := 2 * vote;
        }
      }
    }

    /**
     * `onDeletePost(post)`: deletes the image if the post has one, then the
     * post document, then drops every local post with that id and answers
     * true; any failure is caught and answers false with the local posts kept.
     */
    method OnDeletePost(post: Post, db: Firestore, imageDeletion: Response, docDeletion: Response)
      returns (ok: bool)
      modifies this, db
      ensures ok <==> (!HasImage(post) || imageDeletion.Accepted?) && docDeletion.Accepted?
      ensures ok ==> posts == WithoutPost(old(posts), post.id) && db.docs == old(db.docs) - {PostRef(post.id)}
      ensures !ok ==> posts == old(posts) && db.docs == old(db.docs)
      ensures postVotes == old(postVotes)
    {
      if HasImage(post) && imageDeletion.Rejected? {
        return false;
      }
      var deleted := db.DeleteDocument(PostRef(post.id), docDeletion);
      if deleted.Fail? {
        return false;
      }
      posts := WithoutPost(posts, post.id);
      return true;
    }
  }

  /** Deleting a post that is not in the list leaves the list as it was. */
  lemma DeletingAbsentPostKeepsList(posts: seq<Post>, postId: string)
    ensures (forall j :: 0 <= j < |posts| ==> posts[j].id != postId) ==> WithoutPost(posts, postId) == posts
  {
    if forall j :: 0 <= j < |posts| ==> posts[j].id != postId {
      FilterKeepsAll(posts, (p: Post) => p.id != postId);
    }
  }
}
