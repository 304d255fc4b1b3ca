/** Publishing receipts under a signed checkpoint, and checking a published bundle.

    `signed` stands for the signature check and `jcs` for RFC 8785 canonical bytes; both
    are given by the caller. */
module Disclosure {
  import opened Merkle
  import opened MerkleConsistency
  import opened MerkleInclusion

  datatype Receipt = Receipt(id: string, issuer: string, content: Bytes)
  datatype Checkpoint = Checkpoint(treeSize: int, root: Digest, receiptIds: seq<string>)
  datatype Disclosed = Disclosed(receipt: Receipt, leafIndex: int, proof: seq<Digest>)
  datatype Bundle = Bundle(issuer: string, checkpoint: Checkpoint, disclosed: seq<Disclosed>)

  datatype Published = Refused(id: string) | Ready(bundle: Bundle)
  datatype Failure = IssuerMismatch | BadSignature(id: string) | DoesNotFold(id: string)

  ghost predicate Injective(jcs: Receipt -> Bytes) {
    forall r, s :: jcs(r) == jcs(s) ==> r == s
  }

  function CheckpointLeaves(receipts: seq<Receipt>, jcs: Receipt -> Bytes): (leaves: seq<Bytes>)
    ensures |leaves| == |receipts|
    ensures forall i :: 0 <= i < |leaves| ==> leaves[i] == jcs(receipts[i])
  {
    seq(|receipts|, i requires 0 <= i < |receipts| => jcs(receipts[i]))
  }

  function BuildCheckpoint(receipts: seq<Receipt>, jcs: Receipt -> Bytes): Checkpoint {
    Checkpoint(|receipts|, Root(CheckpointLeaves(receipts, jcs)),
               seq(|receipts|, i requires 0 <= i < |receipts| => receipts[i].id))
  }

  /** Every disclosure names a receipt of the log by its own position and audit path. */
  predicate FromLog(d: Disclosed, log: seq<Receipt>, jcs: Receipt -> Bytes) {
    && 0 <= d.leafIndex < |log|
    && d.receipt == log[d.leafIndex]
    && d.proof == AuditPath(CheckpointLeaves(log, jcs), d.leafIndex)
  }

  /** It discloses the last receipt of the log with this id, which is this issuer's. */
  predicate Names(d: Disclosed, id: string, log: seq<Receipt>, issuer: string, jcs: Receipt -> Bytes) {
    FromLog(d, log, jcs) && LastAt(id, log, d.leafIndex) && d.receipt.issuer == issuer
  }

  /** The position of each id in the log; a repeated id keeps its last position. */
  method IndexById(log: seq<Receipt>) returns (byId: map<string, int>)
    ensures forall id :: id in byId <==> exists k :: 0 <= k < |log| && log[k].id == id
    ensures forall id :: id in byId ==> LastAt(id, log, byId[id])
  {
    byId := map[];
    for i := 0 to |log|
      invariant forall id :: id in byId <==> exists k :: 0 <= k < i && log[k].id == id
      invariant forall id :: id in byId ==> LastAt(id, log[..i], byId[id])
    {
      assert log[..i + 1][..i] == log[..i];
      byId := byId[log[i].id := i];
    }
    assert log[..|log|] == log;
  }

  /** Assembles a bundle for the named receipts. A name the log does not hold, or one whose
      last receipt is another issuer's, refuses the whole bundle. */
  method BuildBundle(ids: seq<string>, log: seq<Receipt>, issuer: string, jcs: Receipt -> Bytes)
    returns (out: Published)
    ensures out.Ready? ==>
              && out.bundle.issuer == issuer
              && out.bundle.checkpoint == BuildCheckpoint(log, jcs)
              && |out.bundle.disclosed| == |ids|
              && forall i :: 0 <= i < |ids| ==> Names(out.bundle.disclosed[i], ids[i], log, issuer, jcs)
    ensures out.Refused? ==> exists i ::
              && 0 <= i < |ids| && ids[i] == out.id && !Publishable(ids[i], log, issuer)
              && forall k :: 0 <= k < i ==> Publishable(ids[k], log, issuer)
    ensures out.Ready? <==> forall id :: id in ids ==> Publishable(id, log, issuer)
  {
    var byId := IndexById(log);
    var leaves := CheckpointLeaves(log, jcs);
    var disclosed: seq<Disclosed> := [];
    for i := 0 to |ids|
      invariant |disclosed| == i
      invariant forall k :: 0 <= k < i ==> Names(disclosed[k], ids[k], log, issuer, jcs)
      invariant forall k :: 0 <= k < i ==> Publishable(ids[k], log, issuer)
    {
      assert ids[i] in ids;
      if ids[i] !in byId {
        return Refused(ids[i]);
      }
      var at := byId[ids[i]];
      assert LastAt(ids[i], log, at);
      if log[at].issuer != issuer {
        return Refused(ids[i]);
      }
      disclosed := disclosed + [Disclosed(log[at], at, AuditPath(leaves, at))];
    }
    out := Ready(Bundle(issuer, BuildCheckpoint(log, jcs), disclosed));
  }

  /** Position `k` holds the last receipt of the log with this id. */
  predicate LastAt(id: string, log: seq<Receipt>, k: int) {
    0 <= k < |log| && log[k].id == id && forall i :: k < i < |log| ==> log[i].id != id
  }

  ghost predicate Publishable(id: string, log: seq<Receipt>, issuer: string) {
    exists k :: LastAt(id, log, k) && log[k].issuer == issuer
  }

  /** A checkpoint names every receipt of its log in order under the root of their canonical
      bytes, and commits to the log: no other has the same size and root. */
  lemma {:induction false} CheckpointCommits(log: seq<Receipt>, other: seq<Receipt>, jcs: Receipt -> Bytes, leaves: seq<Bytes>)
    requires Injective(jcs)
    requires |leaves| == |log| && forall i :: 0 <= i < |log| ==> leaves[i] == jcs(log[i])
    ensures var c := BuildCheckpoint(log, jcs);
            && c.treeSize == |log| == |c.receiptIds| && c.root == Root(leaves)
            && forall i :: 0 <= i < |log| ==> c.receiptIds[i] == log[i].id
    ensures BuildCheckpoint(other, jcs).treeSize == |log| && BuildCheckpoint(other, jcs).root == Root(leaves)
       <==> other == log
  {
    assert leaves == CheckpointLeaves(log, jcs);
    var c := BuildCheckpoint(other, jcs);
    if c.treeSize == |log| && c.root == Root(leaves) {
      var theirs := CheckpointLeaves(other, jcs);
      RootInjective(theirs, leaves);
      forall i | 0 <= i < |log|
        ensures other[i] == log[i]
      {
        assert theirs[i] == leaves[i];
      }
      assert other == log;
    }
  }

  // ---------------------------------------------------------------- checking

  predicate Folds(d: Disclosed, c: Checkpoint, jcs: Receipt -> Bytes) {
    Accepts(jcs(d.receipt), d.leafIndex, c.treeSize, d.proof, c.root)
  }

  function FailuresOf(ds: seq<Disclosed>, c: Checkpoint, signed: Receipt -> bool, jcs: Receipt -> Bytes)
    : seq<Failure>
  {
    if ds == [] then []
    else
      var d, rest := ds[|ds| - 1], FailuresOf(ds[..|ds| - 1], c, signed, jcs);
      if !signed(d.receipt) then rest + [BadSignature(d.receipt.id)]
      else if !Folds(d, c, jcs) then rest + [DoesNotFold(d.receipt.id)]
      else rest
  }

  method Check(bundle: Bundle, orgDid: string, signed: Receipt -> bool, jcs: Receipt -> Bytes)
    returns (failures: seq<Failure>)
    ensures failures == if bundle.issuer != orgDid then [IssuerMismatch]
                        else FailuresOf(bundle.disclosed, bundle.checkpoint, signed, jcs)
  {
    if bundle.issuer != orgDid {
      return [IssuerMismatch];
    }
    var c, ds := bundle.checkpoint, bundle.disclosed;
    failures := [];
    for i := 0 to |ds|
      invariant failures == FailuresOf(ds[..i], c, signed, jcs)
    {
      assert ds[..i + 1][..i] == ds[..i];
      var d := ds[i];
      if !signed(d.receipt) {
        failures := failures + [BadSignature(d.receipt.id)];
        continue;
      }
      var ok := FoldsTo(jcs(d.receipt), d.leafIndex, c.treeSize, d.proof, c.root);
      if !ok {
        failures := failures + [DoesNotFold(d.receipt.id)];
      }
    }
    assert ds[..|ds|] == ds;
  }

  /** A clean report says something about every disclosure, not about their number. */
  lemma {:induction false} NoFailuresIff(ds: seq<Disclosed>, c: Checkpoint, signed: Receipt -> bool, jcs: Receipt -> Bytes)
    ensures FailuresOf(ds, c, signed, jcs) == []
       <==> forall i :: 0 <= i < |ds| ==> signed(ds[i].receipt) && Folds(ds[i], c, jcs)
  {
    if ds != [] {
      NoFailuresIff(ds[..|ds| - 1], c, signed, jcs);
    }
  }

  /** What is reported of one disclosure: its signature if that is bad, else its proof if
      that does not fold, else nothing. */
  lemma {:induction false} OneFailure(d: Disclosed, c: Checkpoint, signed: Receipt -> bool, jcs: Receipt -> Bytes)
    ensures var ok := Accepts(jcs(d.receipt), d.leafIndex, c.treeSize, d.proof, c.root);
            FailuresOf([d], c, signed, jcs) ==
              if signed(d.receipt) then (if ok then [] else [DoesNotFold(d.receipt.id)])
              else [BadSignature(d.receipt.id)]
  {
    var none: seq<Disclosed> := [];
    assert [d][..0] == none && FailuresOf(none, c, signed, jcs) == [];
  }

  /** Disclosures are reported one by one, in order. */
  lemma {:induction false} FailuresConcat(
      a: seq<Disclosed>, b: seq<Disclosed>, c: Checkpoint, signed: Receipt -> bool, jcs: Receipt -> Bytes)
    ensures FailuresOf(a + b, c, signed, jcs) == FailuresOf(a, c, signed, jcs) + FailuresOf(b, c, signed, jcs)
  {
    if b == [] {
      assert a + b == a;
    } else {
      assert (a + b)[..|a + b| - 1] == a + b[..|b| - 1];
      FailuresConcat(a, b[..|b| - 1], c, signed, jcs);
    }
  }

  /** The number reported as verified is the number of disclosures that are. */
  lemma {:induction false} VerifiedCount(
      ds: seq<Disclosed>, c: Checkpoint, signed: Receipt -> bool, jcs: Receipt -> Bytes)
    ensures |ds| - |FailuresOf(ds, c, signed, jcs)| == |Verified(ds, c, signed, jcs)|
  {
    if ds != [] {
      var n := |ds| - 1;
      VerifiedCount(ds[..n], c, signed, jcs);
      VerifiedOneMore(ds, c, signed, jcs);
    }
  }

  lemma {:induction false} VerifiedOneMore(
      ds: seq<Disclosed>, c: Checkpoint, signed: Receipt -> bool, jcs: Receipt -> Bytes)
    requires ds != []
    ensures var n := |ds| - 1;
            |Verified(ds, c, signed, jcs)| == |Verified(ds[..n], c, signed, jcs)|
              + if signed(ds[n].receipt) && Folds(ds[n], c, jcs) then 1 else 0
  {
    var n := |ds| - 1;
    var before := Verified(ds[..n], c, signed, jcs);
    assert Verified(ds, c, signed, jcs)
        == before + if signed(ds[n].receipt) && Folds(ds[n], c, jcs) then {n} else {};
  }

  function Verified(ds: seq<Disclosed>, c: Checkpoint, signed: Receipt -> bool, jcs: Receipt -> Bytes): set<int> {
    set i | 0 <= i < |ds| && signed(ds[i].receipt) && Folds(ds[i], c, jcs)
  }

  /** What the checker accepts from an honest checkpoint: with every index inside the log,
      a bundle is clean exactly when its receipts are signed and come from the log. */
  lemma {:induction false} CleanExactlyWhenFromLog(
      ds: seq<Disclosed>, log: seq<Receipt>, signed: Receipt -> bool, jcs: Receipt -> Bytes)
    requires Injective(jcs)
    requires forall i :: 0 <= i < |ds| ==> 0 <= ds[i].leafIndex < |log|
    ensures FailuresOf(ds, BuildCheckpoint(log, jcs), signed, jcs) == []
       <==> forall i :: 0 <= i < |ds| ==> signed(ds[i].receipt) && FromLog(ds[i], log, jcs)
  {
    var c := BuildCheckpoint(log, jcs);
    NoFailuresIff(ds, c, signed, jcs);
    forall i | 0 <= i < |ds|
      ensures Folds(ds[i], c, jcs) <==> FromLog(ds[i], log, jcs)
    {
      InclusionExact(CheckpointLeaves(log, jcs), ds[i].leafIndex, jcs(ds[i].receipt), ds[i].proof);
    }
  }

  /** Whatever the claimed indices, a clean report means every receipt is in the log. */
  lemma {:induction false} CleanMeansMembers(
      ds: seq<Disclosed>, log: seq<Receipt>, signed: Receipt -> bool, jcs: Receipt -> Bytes)
    requires Injective(jcs)
    requires FailuresOf(ds, BuildCheckpoint(log, jcs), signed, jcs) == []
    ensures forall i :: 0 <= i < |ds| ==> signed(ds[i].receipt) && ds[i].receipt in log
  {
    var c, leaves := BuildCheckpoint(log, jcs), CheckpointLeaves(log, jcs);
    NoFailuresIff(ds, c, signed, jcs);
    forall i | 0 <= i < |ds|
      ensures ds[i].receipt in log
    {
      AcceptedIsMember(leaves, ds[i].leafIndex, |leaves|, jcs(ds[i].receipt), ds[i].proof);
      var k :| 0 <= k < |leaves| && leaves[k] == jcs(ds[i].receipt);
      assert log[k] == ds[i].receipt;
    }
  }
}
