/**
 * The remote document store as the hooks see it: documents addressed by
 * slash-separated paths, each a record of named fields, and write batches
 * that commit all-or-nothing. What the transport answers (accepted, or
 * rejected with a message) is an input; the store itself rejects a batch in
 * which an update targets a document that does not exist. Increments are
 * applied by the store, relative to the value it holds.
 */
module DocumentStore {
  import opened Wrappers

  /** A document path, one segment per element: `posts/p1` is ["posts", "p1"]. */
  type Path = seq<string>

  datatype Value = IntValue(n: int) | StrValue(s: string)

  /** The fields of one document. */
  type Fields = map<string, Value>

  /** The whole store. */
  type Docs = map<Path, Fields>

  /** What an update does to one field: write a value, or `increment(amount)`. */
  datatype FieldWrite = Put(value: Value) | Increment(amount: int)

  type Writes = map<string, FieldWrite>

  /** One write of a batch: `batch.set`, `batch.update`, `batch.delete`. */
  datatype Op =
    | SetDoc(path: Path, fields: Fields)
    | UpdateDoc(path: Path, writes: Writes)
    | DeleteDoc(path: Path)

  /** The store's answer to a write: accepted, or rejected with an error message. */
  datatype Response = Accepted | Rejected(message: string)

  /**
   * The store's answer to a collection read: the ids of the documents in the
   * order it returns them, or the error message.
   */
  datatype ReadResponse = Listed(ids: seq<string>) | ReadFailed(message: string)

  /** The message of a batch rejected because an update's document is missing. */
  const NotFound: string := "not-found"

  /** The segment `${user?.uid}` puts in a path: "undefined" when nobody is signed in. */
  function UidSegment(user: Option<string>): (segment: string)
    ensures user.Some? ==> segment == user.value
    ensures user.None? ==> segment == "undefined"
  {
    if user.Some? then user.value else "undefined"
  }

  /** The value a field holds after one write, given the value it held. */
  function WrittenValue(current: Option<Value>, w: FieldWrite): (v: Value)
    ensures w.Put? ==> v == w.value
    ensures w.Increment? ==>
      && v.IntValue?
      && v.n - (if current.Some? && current.value.IntValue? then current.value.n else 0) == w.amount
  {
    match w
    case Put(v) => v
    case Increment(amount) =>
      // a missing or non-integer field is set to the increment
      if current.Some? && current.value.IntValue? then IntValue(current.value.n + amount) else IntValue(amount)
  }

  /** An update merges its writes into the document; other fields are kept. */
  function ApplyWrites(doc: Fields, writes: Writes): (r: Fields)
    ensures r.Keys == doc.Keys + writes.Keys
    ensures forall f :: f in doc && f !in writes ==> r[f] == doc[f]
    ensures forall f :: f in writes && writes[f].Put? ==> r[f] == writes[f].value
    ensures forall f :: f in writes && writes[f].Increment? ==>
      r[f] == WrittenValue(if f in doc then Some(doc[f]) else None, writes[f])
  {
    map f | f in doc.Keys + writes.Keys ::
      if f in writes then WrittenValue(if f in doc then Some(doc[f]) else None, writes[f]) else doc[f]
  }

  /** One write applied to the store; `None` when an update's document is missing. */
  function ApplyOp(docs: Docs, op: Op): (r: Option<Docs>)
    ensures r.None? <==> op.UpdateDoc? && op.path !in docs
    ensures r.Some? ==> forall q :: q != op.path ==>
      (q in r.value <==> q in docs) && (q in docs ==> r.value[q] == docs[q])
    ensures r.Some? ==> (op.path in r.value <==> !op.DeleteDoc?)
    ensures r.Some? && op.SetDoc? ==> r.value[op.path] == op.fields
    ensures r.Some? && op.UpdateDoc? ==> r.value[op.path] == ApplyWrites(docs[op.path], op.writes)
  {
    match op
    case SetDoc(p, fields) => Some(docs[p := fields])
    case UpdateDoc(p, writes) => if p in docs then Some(docs[p := ApplyWrites(docs[p], writes)]) else None
    case DeleteDoc(p) => Some(docs - {p})
  }

  /** The writes of a batch applied in the order they were added. */
  function ApplyBatch(docs: Docs, ops: seq<Op>): (r: Option<Docs>)
    ensures ops == [] ==> r == Some(docs)
    ensures (forall i :: 0 <= i < |ops| ==> !ops[i].UpdateDoc?) ==> r.Some?
    decreases ops
  {
    if ops == [] then Some(docs)
    else
      match ApplyOp(docs, ops[0])
      case None => None
      case Some(next) => ApplyBatch(next, ops[1..])
  }

  /** `batch.commit()`: the new store, or the error; a failed commit applies nothing. */
  function CommitBatch(docs: Docs, ops: seq<Op>, response: Response): (r: Result<Docs, string>)
    ensures response.Rejected? ==> r == Failure(response.message)
    ensures r.Success? <==> response.Accepted? && ApplyBatch(docs, ops).Some?
    ensures r.Success? ==> r.value == ApplyBatch(docs, ops).value
    ensures response.Accepted? && ApplyBatch(docs, ops).None? ==> r == Failure(NotFound)
  {
    if response.Rejected? then Failure(response.message)
    else
      match ApplyBatch(docs, ops)
      case None => Failure(NotFound)
      case Some(next) => Success(next)
  }

  /** The paths a batch writes to. */
  function Touched(ops: seq<Op>): set<Path>
  {
    set i | 0 <= i < |ops| :: ops[i].path
  }

  /** Applying one more write after a batch is applying the longer batch. */
  lemma {:induction false} ApplyBatchAppend(docs: Docs, ops: seq<Op>, op: Op)
    ensures ApplyBatch(docs, ops + [op]) ==
      match ApplyBatch(docs, ops)
      case None => None
      case Some(d) => ApplyOp(d, op)
    decreases ops
  {
    if ops == [] {
      assert ops + [op] == [op];
      assert [op][1..] == [];
    } else {
      assert (ops + [op])[1..] == ops[1..] + [op];
      match ApplyOp(docs, ops[0])
      case None =>
      case Some(next) => ApplyBatchAppend(next, ops[1..], op);
    }
  }

  /** A batch of two writes applies the first, then the second. */
  lemma ApplyPair(docs: Docs, a: Op, b: Op)
    ensures ApplyBatch(docs, [a, b]) ==
      match ApplyOp(docs, a)
      case None => None
      case Some(d) => ApplyOp(d, b)
  {
    assert [a, b][1..] == [b];
    match ApplyOp(docs, a)
    case None =>
    case Some(d) =>
      assert [b][1..] == [];
      match ApplyOp(d, b)
      case None =>
      case Some(x) => assert ApplyBatch(x, []) == Some(x);
  }

  /** A batch leaves every document it does not write exactly as it was. */
  lemma {:induction false} ApplyBatchFrame(docs: Docs, ops: seq<Op>, p: Path)
    requires ApplyBatch(docs, ops).Some?
    requires p !in Touched(ops)
    ensures p in ApplyBatch(docs, ops).value <==> p in docs
    ensures p in docs ==> ApplyBatch(docs, ops).value[p] == docs[p]
    decreases ops
  {
    if ops != [] {
      assert ops[0].path in Touched(ops);
      var next := ApplyOp(docs, ops[0]).value;
      assert Touched(ops[1..]) <= Touched(ops) by {
        forall q | q in Touched(ops[1..]) ensures q in Touched(ops) {
          var i :| 0 <= i < |ops[1..]| && ops[1..][i].path == q;
          assert ops[i + 1].path == q;
        }
      }
      ApplyBatchFrame(next, ops[1..], p);
    }
  }

  /** A committed batch changes no document outside the paths it writes. */
  lemma CommitOnlyTouchesBatchPaths(docs: Docs, ops: seq<Op>, response: Response)
    requires CommitBatch(docs, ops, response).Success?
    ensures var after := CommitBatch(docs, ops, response).value;
      forall p :: p !in Touched(ops) ==> (p in after <==> p in docs) && (p in docs ==> after[p] == docs[p])
  {
    forall p | p !in Touched(ops) {
      ApplyBatchFrame(docs, ops, p);
    }
  }

  /**
   * When a committed batch ends with an update that writes a value into a
   * field, the document holds that value afterwards.
   */
  lemma CommitEndsWithPut(docs: Docs, ops: seq<Op>, p: Path, writes: Writes, f: string, response: Response)
    requires f in writes && writes[f].Put?
    requires CommitBatch(docs, ops + [UpdateDoc(p, writes)], response).Success?
    ensures var after := CommitBatch(docs, ops + [UpdateDoc(p, writes)], response).value;
      p in after && f in after[p] && after[p][f] == writes[f].value
  {
    ApplyBatchAppend(docs, ops, UpdateDoc(p, writes));
  }

  /** An increment followed by the opposite increment restores an integer field. */
  lemma IncrementsCancel(doc: Fields, f: string, k: int)
    requires f in doc && doc[f].IntValue?
    ensures ApplyWrites(ApplyWrites(doc, map[f := Increment(k)]), map[f := Increment(-k)]) == doc
  {
  }

  /** The ids of the documents directly inside collection `coll`. */
  ghost predicate InCollection(docs: Docs, coll: Path, id: string)
  {
    coll + [id] in docs
  }

  /** `ids` names every document of collection `coll` exactly once. */
  ghost predicate Enumerates(docs: Docs, coll: Path, ids: seq<string>)
  {
    && (forall i, j :: 0 <= i < j < |ids| ==> ids[i] != ids[j])
    && (forall i :: 0 <= i < |ids| ==> InCollection(docs, coll, ids[i]))
    && (forall id :: InCollection(docs, coll, id) ==> id in ids)
  }

  /** The records `getDocs` returns for collection `coll`, in the order of `ids`. */
  function ListedRecords(docs: Docs, coll: Path, ids: seq<string>): (r: seq<Fields>)
    requires forall i :: 0 <= i < |ids| ==> coll + [ids[i]] in docs
    ensures |r| == |ids|
    ensures forall i :: 0 <= i < |ids| ==> r[i] == docs[coll + [ids[i]]]
  {
    seq(|ids|, i requires 0 <= i < |ids| => docs[coll + [ids[i]]])
  }

  /** The remote store: its documents are the one piece of state. */
  class Firestore {
    var docs: Docs

    constructor (docs: Docs)
      ensures this.docs == docs
    {
      this.docs := docs;
    }

    /** `deleteDoc(ref)`: a single write; deleting a missing document succeeds. */
    method DeleteDocument(path: Path, response: Response) returns (r: Outcome<string>)
      modifies this
      ensures response.Accepted? ==> r == Pass && docs == old(docs) - {path}
      ensures response.Rejected? ==> r == Fail(response.message) && docs == old(docs)
    {
      if response.Rejected? {
        return Fail(response.message);
      }
      docs := docs - {path};
      return Pass;
    }

    /** `getDocs(collection(...))`: the records of the collection, or the read error. */
    method GetDocs(coll: Path, response: ReadResponse) returns (r: Result<seq<Fields>, string>)
      requires response.Listed? ==> Enumerates(docs, coll, response.ids)
      ensures response.ReadFailed? ==> r == Failure(response.message)
      ensures response.Listed? ==> r.Success? && |r.value| == |response.ids|
      ensures response.Listed? ==> forall i :: 0 <= i < |response.ids| ==>
        coll + [response.ids[i]] in docs && r.value[i] == docs[coll + [response.ids[i]]]
    {
      if response.ReadFailed? {
        return Failure(response.message);
      }
      assert forall i :: 0 <= i < |response.ids| ==> InCollection(docs, coll, response.ids[i]);
      return Success(ListedRecords(docs, coll, response.ids));
    }
  }

  /** `writeBatch(firestore)`: writes are collected, then committed together. */
  class WriteBatch {
    var ops: seq<Op>

    constructor ()
      ensures ops == []
    {
      ops := [];
    }

    /** `batch.set(ref, data)`: replace the whole document. */
    method Set(path: Path, fields: Fields)
      modifies this
      ensures ops == old(ops) + [SetDoc(path, fields)]
    {
      ops := ops + [SetDoc(path, fields)];
    }

    /** `batch.update(ref, data)`: merge fields into an existing document. */
    method Update(path: Path, writes: Writes)
      modifies this
      ensures ops == old(ops) + [UpdateDoc(path, writes)]
    {
      ops := ops + [UpdateDoc(path, writes)];
    }

    /** `batch.delete(ref)`. */
    method Delete(path: Path)
      modifies this
      ensures ops == old(ops) + [DeleteDoc(path)]
    {
      ops := ops + [DeleteDoc(path)];
    }

    /** `await batch.commit()`: every write lands, or none does and the error is raised. */
    method Commit(db: Firestore, response: Response) returns (r: Outcome<string>)
      modifies db
      ensures var c := CommitBatch(old(db.docs), ops, response);
        && (c.Success? ==> r == Pass && db.docs == c.value)
        && (c.Failure? ==> r == Fail(c.error) && db.docs == old(db.docs))
    {
      var c := CommitBatch(db.docs, ops, response);
      if c.Failure? {
        return Fail(c.error);
      }
      db.docs := c.value;
      return Pass;
    }
  }
}
