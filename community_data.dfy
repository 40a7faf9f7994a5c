/**
 * The membership engine and snippet cache of the community data hook:
 * joining or leaving a community is one batch (the user's snippet document
 * and an increment of the community's member count), applied to the local
 * snippets only after it commits; the snippets are re-read on sign-in and
 * cleared on sign-out.
 */
module CommunityData {
  import opened Wrappers
  import opened Lists
  import opened DocumentStore

  datatype Community = Community(id: string, numberOfMembers: int, imageURL: Option<string>)

  /** The user's record of membership in one community. */
  datatype CommunitySnippet = CommunitySnippet(communityId: string, imageURL: string)

  datatype AuthView = Login | SignUp | ResetPassword

  /** The authentication modal: whether it is open and which form it shows. */
  datatype AuthModalState = AuthModalState(open: bool, view: AuthView)

  function CommunityRef(communityId: string): Path
  {
    ["communities", communityId]
  }

  /** The collection hydration reads and leave deletes from. */
  function SnippetsCollection(uid: string): Path
  {
    ["users", uid, "communitySnippets"]
  }

  /** The collection join writes to, spelled as in the code. */
  function JoinedSnippetsCollection(uid: string): Path
  {
    ["users", uid, "communitySnippts"]
  }

  const MembersField: string := "numberOfMembers"

  function SnippetFields(s: CommunitySnippet): Fields
  {
    map["communityId" := StrValue(s.communityId), "imageURL" := StrValue(s.imageURL)]
  }

  /** A string field of a document read back; a missing or non-string field reads as "". */
  function StringField(doc: Fields, name: string): string
  {
    if name in doc && doc[name].StrValue? then doc[name].s else ""
  }

  /** `{ ...doc.data() } as CommunitySnippet` */
  function SnippetOf(doc: Fields): (s: CommunitySnippet)
    ensures "communityId" in doc && doc["communityId"].StrValue? ==> s.communityId == doc["communityId"].s
    ensures "imageURL" in doc && doc["imageURL"].StrValue? ==> s.imageURL == doc["imageURL"].s
    ensures !("communityId" in doc && doc["communityId"].StrValue?) ==> s.communityId == ""
    ensures !("imageURL" in doc && doc["imageURL"].StrValue?) ==> s.imageURL == ""
  {
    CommunitySnippet(StringField(doc, "communityId"), StringField(doc, "imageURL"))
  }

  /** `snippetDocs.docs.map(doc => ({ ...doc.data() }))` */
  function Hydrated(records: seq<Fields>): (r: seq<CommunitySnippet>)
    ensures |r| == |records|
    ensures forall i :: 0 <= i < |records| ==> r[i] == SnippetOf(records[i])
  {
    seq(|records|, i requires 0 <= i < |records| => SnippetOf(records[i]))
  }

  /** The snippet join creates: `imageURL: communityData.imageURL || ''`. */
  function NewSnippet(c: Community): (s: CommunitySnippet)
    ensures s.communityId == c.id
    ensures c.imageURL.Some? ==> s.imageURL == c.imageURL.value
    ensures c.imageURL.None? ==> s.imageURL == ""
  {
    CommunitySnippet(c.id, if c.imageURL.Some? then c.imageURL.value else "")
  }

  /** The join batch as written: set the snippet, increment the member count. */
  function JoinOps(uid: string, c: Community): (ops: seq<Op>)
    ensures |ops| == 2
    ensures ops[0].SetDoc? && ops[0].path == JoinedSnippetsCollection(uid) + [c.id]
    ensures ops[0].SetDoc? && SnippetOf(ops[0].fields) == NewSnippet(c)
    ensures ops[1] == UpdateDoc(CommunityRef(c.id), map[MembersField := Increment(1)])
  {
    [SetDoc(JoinedSnippetsCollection(uid) + [c.id], SnippetFields(NewSnippet(c))),
     UpdateDoc(CommunityRef(c.id), map[MembersField := Increment(1)])]
  }

  /** The leave batch: delete the snippet, decrement the member count. */
  function LeaveOps(uid: string, communityId: string): (ops: seq<Op>)
    ensures |ops| == 2
    ensures ops[0] == DeleteDoc(SnippetsCollection(uid) + [communityId])
    ensures ops[1] == UpdateDoc(CommunityRef(communityId), map[MembersField := Increment(-1)])
  {
    [DeleteDoc(SnippetsCollection(uid) + [communityId]),
     UpdateDoc(CommunityRef(communityId), map[MembersField := Increment(-1)])]
  }

  /** The join batch the code evidently intends: the snippet in the collection leave and hydration use. */
  function IntendedJoinOps(uid: string, c: Community): (ops: seq<Op>)
    ensures |ops| == 2 && ops[1] == JoinOps(uid, c)[1]
    ensures ops[0].SetDoc? && ops[0].path == LeaveOps(uid, c.id)[0].path
    ensures ops[0].SetDoc? && SnippetOf(ops[0].fields) == NewSnippet(c)
  {
    [SetDoc(SnippetsCollection(uid) + [c.id], SnippetFields(NewSnippet(c))),
     UpdateDoc(CommunityRef(c.id), map[MembersField := Increment(1)])]
  }

  /** `[...prev.mySnippets, newSnippet]` */
  function Joined(snippets: seq<CommunitySnippet>, c: Community): (r: seq<CommunitySnippet>)
    ensures |r| == |snippets| + 1
    ensures r[..|snippets|] == snippets
    ensures r[|snippets|] == NewSnippet(c)
  {
    snippets + [NewSnippet(c)]
  }

  /** `prev.mySnippets.filter(item => item.communityId !== communityId)` */
  function Left(snippets: seq<CommunitySnippet>, communityId: string): (r: seq<CommunitySnippet>)
    ensures forall j :: 0 <= j < |r| ==> r[j] in snippets && r[j].communityId != communityId
    ensures forall j :: 0 <= j < |snippets| && snippets[j].communityId != communityId ==> snippets[j] in r
  {
    Filter(snippets, (s: CommunitySnippet) => s.communityId != communityId)
  }

  /** A snippet written to the store reads back as itself. */
  lemma SnippetRoundTrip(s: CommunitySnippet)
    ensures SnippetOf(SnippetFields(s)) == s
  {
  }

  /**
   * A leave keeps the surviving snippets in their order (leaving splits over
   * any cut of the list), and a list without that community is left as it is.
   */
  lemma LeaveRemovesCommunity(snippets: seq<CommunitySnippet>, communityId: string)
    ensures forall k :: 0 <= k <= |snippets| ==>
      Left(snippets, communityId) == Left(snippets[..k], communityId) + Left(snippets[k..], communityId)
    ensures (forall j :: 0 <= j < |snippets| ==> snippets[j].communityId != communityId) ==> Left(snippets, communityId) == snippets
  {
    var keep := (s: CommunitySnippet) => s.communityId != communityId;
    forall k | 0 <= k <= |snippets|
      ensures Left(snippets, communityId) == Left(snippets[..k], communityId) + Left(snippets[k..], communityId)
    {
      assert snippets == snippets[..k] + snippets[k..];
      FilterConcat(snippets[..k], snippets[k..], keep);
    }
    if forall j :: 0 <= j < |snippets| ==> snippets[j].communityId != communityId {
      FilterKeepsAll(snippets, keep);
    }
  }

  /** Joining a community the user had no snippet for and then leaving it restores the snippets. */
  lemma JoinThenLeaveRestoresSnippets(snippets: seq<CommunitySnippet>, c: Community)
    requires forall j :: 0 <= j < |snippets| ==> snippets[j].communityId != c.id
    ensures Left(Joined(snippets, c), c.id) == snippets
  {
    var keep := (s: CommunitySnippet) => s.communityId != c.id;
    FilterConcat(snippets, [NewSnippet(c)], keep);
    FilterKeepsAll(snippets, keep);
    assert Filter([NewSnippet(c)], keep) == [];
  }

  /** The documents the two join batches and the leave batch write. */
  lemma BatchPaths(uid: string, c: Community)
    ensures Touched(JoinOps(uid, c)) == {JoinedSnippetsCollection(uid) + [c.id], CommunityRef(c.id)}
    ensures Touched(IntendedJoinOps(uid, c)) == {SnippetsCollection(uid) + [c.id], CommunityRef(c.id)}
    ensures Touched(LeaveOps(uid, c.id)) == {SnippetsCollection(uid) + [c.id], CommunityRef(c.id)}
  {
    var join, intended, leave := JoinOps(uid, c), IntendedJoinOps(uid, c), LeaveOps(uid, c.id);
    assert join[0].path in Touched(join) && join[1].path in Touched(join);
    assert intended[0].path in Touched(intended) && intended[1].path in Touched(intended);
    assert leave[0].path in Touched(leave) && leave[1].path in Touched(leave);
  }

  /** No document of the snippets collection is one the join batch as written touches. */
  lemma JoinMissesSnippetsCollection(uid: string, c: Community, id: string)
    ensures SnippetsCollection(uid) + [id] !in Touched(JoinOps(uid, c))
  {
    BatchPaths(uid, c);
    var p := SnippetsCollection(uid) + [id];
    assert p[2] == "communitySnippets";
    assert (JoinedSnippetsCollection(uid) + [c.id])[2] == "communitySnippts";
  }

  /**
   * The stray snippet: after a committed join the snippets collection is
   * exactly as before, so sign-in hydration lists the same documents and
   * yields the same snippets, and a community absent before is still absent.
   */
  lemma JoinedSnippetIsNotHydrated(docs: Docs, uid: string, c: Community, response: Response, ids: seq<string>)
    requires CommitBatch(docs, JoinOps(uid, c), response).Success?
    ensures var after := CommitBatch(docs, JoinOps(uid, c), response).value;
      var coll := SnippetsCollection(uid);
      && (Enumerates(after, coll, ids) <==> Enumerates(docs, coll, ids))
      && (Enumerates(docs, coll, ids) ==>
            Hydrated(ListedRecords(after, coll, ids)) == Hydrated(ListedRecords(docs, coll, ids)))
      && (!InCollection(docs, coll, c.id) ==> !InCollection(after, coll, c.id))
  {
    var after := CommitBatch(docs, JoinOps(uid, c), response).value;
    var coll := SnippetsCollection(uid);
    CommitOnlyTouchesBatchPaths(docs, JoinOps(uid, c), response);
    forall id ensures (coll + [id] in after <==> coll + [id] in docs)
      && (coll + [id] in docs ==> after[coll + [id]] == docs[coll + [id]])
    {
      JoinMissesSnippetsCollection(uid, c, id);
    }
    assert forall id :: InCollection(after, coll, id) <==> InCollection(docs, coll, id);
    if Enumerates(docs, coll, ids) {
      assert ListedRecords(after, coll, ids) == ListedRecords(docs, coll, ids);
    }
  }

  /**
   * With the intended collection a committed join is seen by hydration:
   * every listing of the snippets collection yields the new snippet.
   */
  lemma IntendedJoinIsHydrated(docs: Docs, uid: string, c: Community, response: Response, ids: seq<string>)
    requires CommitBatch(docs, IntendedJoinOps(uid, c), response).Success?
    requires Enumerates(CommitBatch(docs, IntendedJoinOps(uid, c), response).value, SnippetsCollection(uid), ids)
    ensures var after := CommitBatch(docs, IntendedJoinOps(uid, c), response).value;
      NewSnippet(c) in Hydrated(ListedRecords(after, SnippetsCollection(uid), ids))
  {
    var ops := IntendedJoinOps(uid, c);
    var after := CommitBatch(docs, ops, response).value;
    var coll := SnippetsCollection(uid);
    var sref := coll + [c.id];
    ApplyPair(docs, ops[0], ops[1]);
    assert sref != CommunityRef(c.id);
    assert sref in after && after[sref] == SnippetFields(NewSnippet(c));
    assert InCollection(after, coll, c.id);
    var i :| 0 <= i < |ids| && ids[i] == c.id;
    assert Hydrated(ListedRecords(after, coll, ids))[i] == SnippetOf(SnippetFields(NewSnippet(c)));
  }

  /** The store after a committed join and a committed leave, as the two batches are written. */
  lemma JoinThenLeaveStore(docs: Docs, uid: string, c: Community, r1: Response, r2: Response)
    requires CommunityRef(c.id) in docs && MembersField in docs[CommunityRef(c.id)]
    requires docs[CommunityRef(c.id)][MembersField].IntValue?
    requires CommitBatch(docs, JoinOps(uid, c), r1).Success?
    requires CommitBatch(CommitBatch(docs, JoinOps(uid, c), r1).value, LeaveOps(uid, c.id), r2).Success?
    ensures var after := CommitBatch(CommitBatch(docs, JoinOps(uid, c), r1).value, LeaveOps(uid, c.id), r2).value;
      var stray := JoinedSnippetsCollection(uid) + [c.id];
      && after == docs[stray := SnippetFields(NewSnippet(c))] - {SnippetsCollection(uid) + [c.id]}
      && after[CommunityRef(c.id)] == docs[CommunityRef(c.id)]
      && stray in after
  {
    var join, leave := JoinOps(uid, c), LeaveOps(uid, c.id);
    var cref, stray, sref := CommunityRef(c.id), JoinedSnippetsCollection(uid) + [c.id], SnippetsCollection(uid) + [c.id];
    assert stray != cref && sref != cref;
    assert stray[2] != sref[2];
    var doc := docs[cref];
    var d1 := docs[stray := SnippetFields(NewSnippet(c))][cref := ApplyWrites(doc, join[1].writes)];
    ApplyPair(docs, join[0], join[1]);
    assert ApplyBatch(docs, join) == Some(d1);
    var d2 := (d1 - {sref})[cref := ApplyWrites(d1[cref], leave[1].writes)];
    ApplyPair(d1, leave[0], leave[1]);
    assert ApplyBatch(d1, leave) == Some(d2);
    IncrementsCancel(doc, MembersField, 1);
    var expected := docs[stray := SnippetFields(NewSnippet(c))] - {sref};
    assert d2.Keys == expected.Keys;
    assert forall q :: q in expected ==> d2[q] == expected[q];
  }

  /** With the intended join batch, a join then a leave leaves the store as it was. */
  lemma IntendedJoinThenLeaveRestoresStore(docs: Docs, uid: string, c: Community, r1: Response, r2: Response)
    requires CommunityRef(c.id) in docs && MembersField in docs[CommunityRef(c.id)]
    requires docs[CommunityRef(c.id)][MembersField].IntValue?
    requires SnippetsCollection(uid) + [c.id] !in docs
    requires CommitBatch(docs, IntendedJoinOps(uid, c), r1).Success?
    requires CommitBatch(CommitBatch(docs, IntendedJoinOps(uid, c), r1).value, LeaveOps(uid, c.id), r2).Success?
    ensures CommitBatch(CommitBatch(docs, IntendedJoinOps(uid, c), r1).value, LeaveOps(uid, c.id), r2).value == docs
  {
    var join, leave := IntendedJoinOps(uid, c), LeaveOps(uid, c.id);
    var cref, sref := CommunityRef(c.id), SnippetsCollection(uid) + [c.id];
    assert sref != cref;
    var doc := docs[cref];
    var d1 := docs[sref := SnippetFields(NewSnippet(c))][cref := ApplyWrites(doc, join[1].writes)];
    ApplyPair(docs, join[0], join[1]);
    assert ApplyBatch(docs, join) == Some(d1);
    var d2 := (d1 - {sref})[cref := ApplyWrites(d1[cref], leave[1].writes)];
    ApplyPair(d1, leave[0], leave[1]);
    assert ApplyBatch(d1, leave) == Some(d2);
    IncrementsCancel(doc, MembersField, 1);
    assert d2.Keys == docs.Keys;
    assert forall q :: q in docs ==> d2[q] == docs[q];
  }

  /** The local state of the community data hook and the auth modal it opens. */
  class CommunityDataHook {
    var mySnippets: seq<CommunitySnippet>
    var loading: bool
    var error: string
    var authModal: AuthModalState

    constructor (authModal: AuthModalState)
      ensures mySnippets == [] && !loading && error == "" && this.authModal == authModal
    {
      mySnippets := [];
      loading := false;
      error := "";
      this.authModal := authModal;
    }

    /**
     * `onJoinOrLeaveCommunity(communityData, isJoined)`: with nobody signed in
     * only the login modal opens; otherwise a joined community is left and
     * any other is joined.
     */
    method OnJoinOrLeaveCommunity(user: Option<string>, community: Community, isJoined: bool,
                                  db: Firestore, response: Response)
      modifies this, db
      ensures user.None? ==>
        && authModal == AuthModalState(true, Login)
        && mySnippets == old(mySnippets) && loading == old(loading) && error == old(error)
        && db.docs == old(db.docs)
      ensures user.Some? ==> authModal == old(authModal) && !loading
      ensures user.Some? ==>
        var ops := if isJoined then LeaveOps(user.value, community.id) else JoinOps(user.value, community);
        var c := CommitBatch(old(db.docs), ops, response);
        && (c.Success? ==>
              && db.docs == c.value && error == old(error)
              && mySnippets == if isJoined then Left(old(mySnippets), community.id) else Joined(old(mySnippets), community))
        && (c.Failure? ==> db.docs == old(db.docs) && error == c.error && mySnippets == old(mySnippets))
    {
      if user.None? {
        authModal := AuthModalState(true, Login);
        return;
      }
      if isJoined {
        LeaveCommunity(user, community.id, db, response);
        return;
      }
      JoinCommunity(user, community, db, response);
    }

    /** `joinCommunity(communityData)` */
    method JoinCommunity(user: Option<string>, communityData: Community, db: Firestore, response: Response)
      modifies this, db
      ensures var c := CommitBatch(old(db.docs), JoinOps(UidSegment(user), communityData), response);
        && (c.Success? ==> db.docs == c.value && mySnippets == Joined(old(mySnippets), communityData) && error == old(error))
        && (c.Failure? ==> db.docs == old(db.docs) && mySnippets == old(mySnippets) && error == c.error)
      ensures !loading && authModal == old(authModal)
    {
      var batch := new WriteBatch();
      var newSnippet := NewSnippet(communityData);
      batch.Set(JoinedSnippetsCollection(UidSegment(user)) + [communityData.id], SnippetFields(newSnippet));
      batch.Update(CommunityRef(communityData.id), map[MembersField := Increment(1)]);
      assert batch.ops == JoinOps(UidSegment(user), communityData);
      var committed := batch.Commit(db, response);
      if committed.Pass? {
        mySnippets := mySnippets + [newSnippet];
      } else {
        error := committed.error;
      }
      loading := false;
    }

    /** `leaveCommunity(communityId)` */
    method LeaveCommunity(user: Option<string>, communityId: string, db: Firestore, response: Response)
      modifies this, db
      ensures var c := CommitBatch(old(db.docs), LeaveOps(UidSegment(user), communityId), response);
        && (c.Success? ==> db.docs == c.value && mySnippets == Left(old(mySnippets), communityId) && error == old(error))
        && (c.Failure? ==> db.docs == old(db.docs) && mySnippets == old(mySnippets) && error == c.error)
      ensures !loading && authModal == old(authModal)
    {
      var batch := new WriteBatch();
      batch.Delete(SnippetsCollection(UidSegment(user)) + [communityId]);
      batch.Update(CommunityRef(communityId), map[MembersField := Increment(-1)]);
      assert batch.ops == LeaveOps(UidSegment(user), communityId);
      var committed := batch.Commit(db, response);
      if committed.Pass? {
        mySnippets := Left(mySnippets, communityId);
      } else {
        error := committed.error;
      }
      loading := false;
    }

    /**
     * `getMySnippets()`: reads the user's snippets collection and replaces the
     * local snippets with what it returns; a failed read keeps them and
     * records the message.
     */
    method GetMySnippets(user: Option<string>, db: Firestore, response: ReadResponse)
      requires response.Listed? ==> Enumerates(db.docs, SnippetsCollection(UidSegment(user)), response.ids)
      modifies this
      ensures response.Listed? ==>
        && mySnippets == Hydrated(ListedRecords(db.docs, SnippetsCollection(UidSegment(user)), response.ids))
        && error == old(error)
      ensures response.ReadFailed? ==> mySnippets == old(mySnippets) && error == response.message
      ensures !loading && authModal == old(authModal)
    {
      loading := true;
      var read := db.GetDocs(SnippetsCollection(UidSegment(user)), response);
      if read.Success? {
        mySnippets := Hydrated(read.value);
      } else {
        error := read.error;
      }
      loading := false;
    }

    /** The effect run when the signed-in user changes: clear on sign-out, hydrate on sign-in. */
    method OnUserChanged(user: Option<string>, db: Firestore, response: ReadResponse)
      requires user.Some? && response.Listed? ==> Enumerates(db.docs, SnippetsCollection(user.value), response.ids)
      modifies this
      ensures user.None? ==> mySnippets == [] && loading == old(loading) && error == old(error)
      ensures user.Some? && response.Listed? ==>
        && mySnippets == Hydrated(ListedRecords(db.docs, SnippetsCollection(user.value), response.ids))
        && error == old(error) && !loading
      ensures user.Some? && response.ReadFailed? ==>
        mySnippets == old(mySnippets) && error == response.message && !loading
      ensures authModal == old(authModal)
    {
      if user.None? {
        mySnippets := [];
        return;
      }
      GetMySnippets(user, db, response);
    }
  }
}
