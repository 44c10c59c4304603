/**
 A content-addressed store (internal/blob/blob.go): what a backend answers, and what
 a whole run of operations on it answers.
 */
module BlobStore {
  import opened Common

  datatype Error = InvalidDigest | NotFound | Mismatch | RepeatedlyEvicted
  datatype Result<+T> = Ok(value: T) | Err(error: Error)

  datatype Info = Info(digest: string, size: nat, created: bool)

  /** Every content hashes to the name it is stored under. */
  ghost predicate Honest(hash: Hash, store: Store) { forall d :: d in store ==> hash(store[d]) == d }

  datatype Op = Put(content: Bytes) | Open(digest: string) | Stat(digest: string) | Delete(digest: string)

  datatype Reply =
    | Stored(info: Info)
    | Content(content: Result<Bytes>)
    | Size(size: Result<nat>)
    | Deleted(valid: bool)

  /** Content already there is not stored again. */
  function AfterPut(hash: Hash, store: Store, b: Bytes): Store {
    if hash(b) in store then store else store[hash(b) := b]
  }

  function After(hash: Hash, store: Store, op: Op): Store {
    match op
    case Put(b) => AfterPut(hash, store, b)
    case Delete(d) => if ValidDigest(d) then store - {d} else store
    case _ => store
  }

  function Answer(hash: Hash, store: Store, op: Op): Reply {
    match op
    case Put(b) => Stored(Info(hash(b), |b|, hash(b) !in store))
    case Open(d) =>
      Content(if !ValidDigest(d) then Err(InvalidDigest) else if d in store then Ok(store[d]) else Err(NotFound))
    case Stat(d) =>
      Size(if !ValidDigest(d) then Err(InvalidDigest) else if d in store then Ok(|store[d]|) else Err(NotFound))
    case Delete(d) => Deleted(ValidDigest(d))
  }

  /** Everything stored is among the known contents. */
  ghost predicate Among(store: Store, known: set<Bytes>) { forall d :: d in store ==> store[d] in known }

  /** Everything a run puts is among the known contents. */
  ghost predicate PutsAmong(ops: seq<Op>, known: set<Bytes>) {
    forall i :: 0 <= i < |ops| && ops[i].Put? ==> ops[i].content in known
  }

  /** The store after a run. */
  function Final(hash: Hash, store: Store, ops: seq<Op>): Store {
    if ops == [] then store else After(hash, Final(hash, store, ops[..|ops| - 1]), ops[|ops| - 1])
  }

  /** What a run answers, operation by operation. */
  function Answers(hash: Hash, store: Store, ops: seq<Op>): seq<Reply> {
    if ops == [] then []
    else Answers(hash, store, ops[..|ops| - 1]) + [Answer(hash, Final(hash, store, ops[..|ops| - 1]), ops[|ops| - 1])]
  }

  // ------------------------------------------------------------- about a run

  lemma {:induction false} AnswersAt(hash: Hash, store: Store, ops: seq<Op>, j: nat)
    requires j < |ops|
    ensures |Answers(hash, store, ops)| == |ops|
    ensures Answers(hash, store, ops)[j] == Answer(hash, Final(hash, store, ops[..j]), ops[j])
  {
    var n := |ops| - 1;
    if j < n {
      AnswersAt(hash, store, ops[..n], j);
      assert ops[..n][..j] == ops[..j];
    } else if n > 0 {
      AnswersAt(hash, store, ops[..n], n - 1);
    }
  }

  /** A run stores only what it was given, under the right names. */
  lemma {:induction false} FinalAmong(hash: Hash, store: Store, ops: seq<Op>, known: set<Bytes>)
    requires Honest(hash, store) && Among(store, known) && PutsAmong(ops, known)
    ensures Honest(hash, Final(hash, store, ops)) && Among(Final(hash, store, ops), known)
  {
    if ops != [] {
      assert ops[|ops| - 1].Put? ==> ops[|ops| - 1].content in known;
      FinalAmong(hash, store, ops[..|ops| - 1], known);
    }
  }

  lemma {:induction false} FinalKeeps(hash: Hash, store: Store, ops: seq<Op>, i: nat, d: string)
    requires i < |ops| && ops[i].Put? && hash(ops[i].content) == d && forall k :: i < k < |ops| ==> ops[k] != Delete(d)
    ensures d in Final(hash, store, ops)
  {
    var n := |ops| - 1;
    if i < n {
      assert ops[..n][i] == ops[i];
      FinalKeeps(hash, store, ops[..n], i, d);
      assert ops[n] != Delete(d);
    }
  }

  /** The digest is not deleted from the i-th operation on. */
  ghost predicate Kept(ops: seq<Op>, i: nat, d: string) { forall k :: i <= k < |ops| ==> ops[k] != Delete(d) }

  /** The content of this digest was put, or was there at the start, and was not deleted since. */
  ghost predicate Held(hash: Hash, store: Store, ops: seq<Op>, d: string) {
    || (d in store && Kept(ops, 0, d))
    || (exists i :: 0 <= i < |ops| && ops[i].Put? && hash(ops[i].content) == d && Kept(ops, i, d))
  }

  lemma {:induction false} FinalHolds(hash: Hash, store: Store, ops: seq<Op>, d: string)
    requires ValidDigest(d)
    ensures d in Final(hash, store, ops) <==> Held(hash, store, ops, d)
  {
    if ops != [] {
      FinalHolds(hash, store, ops[..|ops| - 1], d);
      HeldNext(hash, store, ops, d);
    }
  }

  lemma HeldNext(hash: Hash, store: Store, ops: seq<Op>, d: string)
    requires ops != []
    ensures var op := ops[|ops| - 1];
            Held(hash, store, ops, d) <==>
              (op.Put? && hash(op.content) == d) || (op != Delete(d) && Held(hash, store, ops[..|ops| - 1], d))
  {
    var n := |ops| - 1;
    var front, op := ops[..n], ops[n];
    forall i | 0 <= i <= n ensures Kept(ops, i, d) <==> Kept(front, i, d) && op != Delete(d) {
      assert forall k :: 0 <= k < n ==> front[k] == ops[k];
    }
    if i :| 0 <= i < n && ops[i].Put? && hash(ops[i].content) == d && Kept(ops, i, d) {
      assert front[i] == ops[i];
    }
  }

  /** What every operation of a run answers, by what was put and not deleted before it. */
  lemma AnswersMean(hash: Hash, store: Store, ops: seq<Op>, j: nat)
    requires Honest(hash, store) && j < |ops|
    ensures |Answers(hash, store, ops)| == |ops|
    ensures var held, reply := d => Held(hash, store, ops[..j], d), Answers(hash, store, ops)[j];
            match ops[j]
            case Put(b) => ValidDigest(hash(b)) ==> reply == Stored(Info(hash(b), |b|, !held(hash(b))))
            case Open(d) =>
              if !ValidDigest(d) then reply == Content(Err(InvalidDigest))
              else if !held(d) then reply == Content(Err(NotFound))
              else exists b :: hash(b) == d && reply == Content(Ok(b))
            case Stat(d) =>
              if !ValidDigest(d) then reply == Size(Err(InvalidDigest))
              else if !held(d) then reply == Size(Err(NotFound))
              else exists b :: hash(b) == d && reply == Size(Ok(|b|))
            case Delete(d) => reply == Deleted(ValidDigest(d))
  {
    AnswersAt(hash, store, ops, j);
    var now := Final(hash, store, ops[..j]);
    FinalHonest(hash, store, ops[..j]);
    match ops[j]
    case Put(b) => if ValidDigest(hash(b)) { FinalHolds(hash, store, ops[..j], hash(b)); }
    case Open(d) => if ValidDigest(d) { FinalHolds(hash, store, ops[..j], d); }
    case Stat(d) =>
      if ValidDigest(d) {
        FinalHolds(hash, store, ops[..j], d);
        if d in now {
          assert hash(now[d]) == d;
        }
      }
    case Delete(d) =>
  }

  lemma {:induction false} FinalHonest(hash: Hash, store: Store, ops: seq<Op>)
    requires Honest(hash, store)
    ensures Honest(hash, Final(hash, store, ops))
  {
    if ops != [] {
      FinalHonest(hash, store, ops[..|ops| - 1]);
    }
  }

  /** What was put is read back until it is deleted, whatever else the run does. */
  lemma KeepsWhatWasPut(hash: Hash, store: Store, ops: seq<Op>, known: set<Bytes>, i: nat, j: nat)
    requires Apart(hash, known) && Honest(hash, store) && Among(store, known) && PutsAmong(ops, known)
    requires i < j < |ops| && ops[i].Put? && ops[j] == Open(hash(ops[i].content)) && ValidDigest(hash(ops[i].content))
    requires forall k :: i < k < j ==> ops[k] != Delete(hash(ops[i].content))
    ensures |Answers(hash, store, ops)| == |ops| && Answers(hash, store, ops)[j] == Content(Ok(ops[i].content))
  {
    var before := ops[..j];
    AnswersAt(hash, store, ops, j);
    FinalAmong(hash, store, before, known);
    assert before[i] == ops[i];
    FinalKeeps(hash, store, before, i, hash(ops[i].content));
  }
}
