/** Which images a gallery holds after a replacement, told from the uploads alone
    (src/apps/catalog/services.py:220-299, src/apps/catalog/views.py:93-193). */
module GalleryOutcomes {
  import opened Base
  import opened Gallery
  import opened GalleryInvariant
  import opened GalleryRepair

  predicate NoneFails(uploads: seq<Upload>) {
    forall i :: 0 <= i < |uploads| ==> uploads[i].save.TempSaved?
  }

  /** At most four images, every save works, and neither the rows nor the caller's transaction raise. */
  predicate Succeeds(uploads: seq<Upload>, f: ReplaceFaults) {
    |uploads| <= 4 && NoneFails(uploads) && !f.lockRaises && !f.rowsRaise && !f.viewRaises
  }

  // ---------- Staging ----------

  predicate Below(protected: set<Key>, k: Key) {
    forall p :: p in protected ==> p < k
  }

  /** The row of the i-th upload: two fresh keys, its own digest. */
  function StagedRow(product: nat, first: Key, uploads: seq<Upload>, i: nat): Image
    requires i < |uploads|
  {
    Image(product, first + 2 * i, first + 2 * i + 1, Sha256(uploads[i].content), Pending)
  }

  lemma StageOneSaved(st: Staging, protected: set<Key>, product: nat, u: Upload)
    requires !st.failed && Below(protected, st.nextKey) && u.save.TempSaved?
    ensures var next := StageOne(st, protected, product, u);
            && !next.failed && next.nextKey == st.nextKey + 2
            && next.blobs == st.blobs[st.nextKey := u.content]
            && next.rows == st.rows + [StagedRow(product, st.nextKey, [u], 0)]
  {
  }

  /** When no save fails every upload becomes one row, in order, with its own bytes at its own key. */
  lemma {:induction false} StageSaves(st: Staging, protected: set<Key>, product: nat, uploads: seq<Upload>)
    requires !st.failed && Below(protected, st.nextKey) && NoneFails(uploads)
    ensures var r := Stage(st, protected, product, uploads);
            && !r.failed && |r.rows| == |st.rows| + |uploads| && r.rows[..|st.rows|] == st.rows
            && (forall i :: 0 <= i < |uploads| ==>
                  && r.rows[|st.rows| + i] == StagedRow(product, st.nextKey, uploads, i)
                  && st.nextKey + 2 * i in r.blobs && r.blobs[st.nextKey + 2 * i] == uploads[i].content)
            && (forall k :: k < st.nextKey ==> (k in r.blobs <==> k in st.blobs) && (k in st.blobs ==> r.blobs[k] == st.blobs[k]))
    decreases |uploads|
  {
    if uploads != [] {
      var (head, tail) := (uploads[0], uploads[1..]);
      var next := StageOne(st, protected, product, head);
      StageOneSaved(st, protected, product, head);
      StageSaves(next, protected + {st.nextKey, st.nextKey + 1}, product, tail);
      var r := Stage(st, protected, product, uploads);
      assert r == Stage(next, protected + {st.nextKey, st.nextKey + 1}, product, tail);
      forall i | 0 <= i < |uploads|
        ensures r.rows[|st.rows| + i] == StagedRow(product, st.nextKey, uploads, i)
        ensures st.nextKey + 2 * i in r.blobs && r.blobs[st.nextKey + 2 * i] == uploads[i].content
      {
        if i == 0 {
          assert r.rows[..|next.rows|][|st.rows|] == next.rows[|st.rows|];
        } else {
          assert StagedRow(product, next.nextKey, tail, i - 1) == StagedRow(product, st.nextKey, uploads, i);
          assert tail[i - 1] == uploads[i];
          assert next.nextKey + 2 * (i - 1) == st.nextKey + 2 * i;
        }
      }
      assert r.rows[..|st.rows|] == r.rows[..|next.rows|][..|st.rows|];
    }
  }

  lemma {:induction false} StageFails(st: Staging, protected: set<Key>, product: nat, uploads: seq<Upload>, i: nat)
    requires st.failed || (i < |uploads| && !uploads[i].save.TempSaved?)
    ensures Stage(st, protected, product, uploads).failed
    decreases |uploads|
  {
    if !st.failed && uploads != [] {
      var next := StageOne(st, protected, product, uploads[0]);
      StageFails(next, protected + {st.nextKey, st.nextKey + 1}, product, uploads[1..], if i == 0 then 0 else i - 1);
    }
  }

  lemma ProtectedBelow(s: Store, product: nat)
    requires KeysDrawn(s)
    ensures Below(ProtectedNames(s, product), s.nextKey)
  {
    assert product in s.legacy ==> s.legacy[product] in s.legacy.Values;
  }

  // ---------- The replacement ----------

  /** The transaction commits. */
  predicate Commits(s: Store, product: nat, uploads: seq<Upload>, f: ReplaceFaults) {
    |uploads| <= 4 && !f.lockRaises && !Stage(InitialStaging(s), ProtectedNames(s, product), product, uploads).failed
    && !f.rowsRaise && !f.viewRaises
  }

  /** It commits exactly when no call fails and there are at most four images. */
  lemma CommitsIff(s: Store, product: nat, uploads: seq<Upload>, f: ReplaceFaults)
    requires KeysDrawn(s)
    ensures Commits(s, product, uploads, f) <==> Succeeds(uploads, f)
  {
    if NoneFails(uploads) {
      StagedGallery(s, product, uploads);
    } else {
      var i :| 0 <= i < |uploads| && !uploads[i].save.TempSaved?;
      StageFails(InitialStaging(s), ProtectedNames(s, product), product, uploads, i);
    }
  }


  /** The i-th upload is a pending row under the i-th next key, with its digest and its bytes. */
  predicate HoldsUpload(s: Store, after: Store, product: nat, uploads: seq<Upload>, i: nat)
    requires i < |uploads|
  {
    var id := s.nextImage + i;
    && id in after.images && after.images[id].product == product && after.images[id].state.Pending?
    && after.images[id].digest == Sha256(uploads[i].content)
    && after.images[id].name in after.blobs && after.blobs[after.images[id].name] == uploads[i].content
  }

  /** A row is new, or an old row of another product, unchanged. */
  predicate NewOrOther(s: Store, after: Store, product: nat, count: nat, id: nat) {
    if s.nextImage <= id < s.nextImage + count then id in after.images && after.images[id].product == product
    else if id in s.images && s.images[id].product != product then id in after.images && after.images[id] == s.images[id]
    else id !in after.images
  }

  /** Storage and outbox only grow; every key the old rows stood for awaits deletion. */
  ghost predicate GivenUp(s: Store, after: Store, product: nat) {
    && (forall id, k :: id in s.images && s.images[id].product == product && Names(s.images[id], k) ==> k in after.outbox)
    && (forall k :: k in s.outbox ==> k in after.outbox && after.outbox[k] == s.outbox[k])
  }

  ghost predicate FilesKept(s: Store, after: Store) {
    forall k :: k in s.blobs ==> k in after.blobs && after.blobs[k] == s.blobs[k]
  }

  /** A staging that succeeded, as the uploads tell it. */
  ghost predicate StagedAll(s: Store, product: nat, uploads: seq<Upload>, st: Staging) {
    && |st.rows| == |uploads|
    && (forall i :: 0 <= i < |uploads| ==> st.rows[i] == StagedRow(product, s.nextKey, uploads, i))
    && (forall i :: 0 <= i < |uploads| ==> StoredAt(st.blobs, s.nextKey + 2 * i, uploads[i].content))
    && (forall k :: k in s.blobs ==> k in st.blobs && st.blobs[k] == s.blobs[k])
  }

  predicate StoredAt(blobs: map<Key, Bytes>, k: Key, content: Bytes) {
    k in blobs && blobs[k] == content
  }

  lemma StagedGallery(s: Store, product: nat, uploads: seq<Upload>)
    requires KeysDrawn(s) && NoneFails(uploads)
    ensures !Staged(s, product, uploads).failed && StagedAll(s, product, uploads, Staged(s, product, uploads))
  {
    var (start, st) := (InitialStaging(s), Staged(s, product, uploads));
    ProtectedBelow(s, product);
    StageSaves(start, ProtectedNames(s, product), product, uploads);
    forall i | 0 <= i < |uploads|
      ensures st.rows[i] == StagedRow(product, s.nextKey, uploads, i) && StoredAt(st.blobs, s.nextKey + 2 * i, uploads[i].content)
    {
      assert st.rows[|start.rows| + i] == StagedRow(product, start.nextKey, uploads, i);
    }
  }

  /** A successful replacement leaves the product with exactly one pending row for each upload, in order,
      each with its own digest and its own bytes stored; other products keep their rows, old files stay, and
      the keys of the old rows await deletion. */
  lemma ReplacedGallery(s: Store, product: nat, uploads: seq<Upload>, f: ReplaceFaults)
    requires Inv(s) && Succeeds(uploads, f)
    ensures var after := Replace(s, product, uploads, f);
            && after.nextImage == s.nextImage + |uploads|
            && (forall i :: 0 <= i < |uploads| ==> HoldsUpload(s, after, product, uploads, i))
            && (forall id :: NewOrOther(s, after, product, |uploads|, id))
            && FilesKept(s, after) && GivenUp(s, after, product)
            && after.legacy == s.legacy && after.lost == s.lost
  {
    var st := Staged(s, product, uploads);
    StagedGallery(s, product, uploads);
    assert Replace(s, product, uploads, f) == Committed(s, product, st);
    CommittedUploads(s, product, uploads, st);
    CommittedOutbox(s, product, st);
  }

  lemma CommittedUploads(s: Store, product: nat, uploads: seq<Upload>, st: Staging)
    requires KeysDrawn(s) && StagedAll(s, product, uploads, st)
    ensures var after := Committed(s, product, st);
            && after.nextImage == s.nextImage + |uploads|
            && (forall i :: 0 <= i < |uploads| ==> HoldsUpload(s, after, product, uploads, i))
            && (forall id :: NewOrOther(s, after, product, |uploads|, id))
            && FilesKept(s, after)
  {
    var after := Committed(s, product, st);
    forall i | 0 <= i < |uploads| ensures HoldsUpload(s, after, product, uploads, i) {
      CommittedUpload(s, product, uploads, st, i);
    }
    forall id ensures NewOrOther(s, after, product, |uploads|, id) {
      CommittedOthers(s, product, uploads, st, id);
    }
  }

  lemma CommittedUpload(s: Store, product: nat, uploads: seq<Upload>, st: Staging, i: nat)
    requires forall id :: id in s.images ==> id < s.nextImage
    requires i < |uploads| == |st.rows| && st.rows[i] == StagedRow(product, s.nextKey, uploads, i)
    requires StoredAt(st.blobs, s.nextKey + 2 * i, uploads[i].content)
    ensures HoldsUpload(s, Committed(s, product, st), product, uploads, i)
  {
    CommittedRow(s, product, st, s.nextImage + i);
  }

  lemma CommittedOthers(s: Store, product: nat, uploads: seq<Upload>, st: Staging, id: nat)
    requires forall id :: id in s.images ==> id < s.nextImage
    requires |uploads| == |st.rows| && forall i :: 0 <= i < |st.rows| ==> st.rows[i] == StagedRow(product, s.nextKey, uploads, i)
    ensures NewOrOther(s, Committed(s, product, st), product, |uploads|, id)
  {
    CommittedRow(s, product, st, id);
  }

  lemma CommittedOutbox(s: Store, product: nat, st: Staging)
    requires Inv(s)
    ensures var after := Committed(s, product, st);
            GivenUp(s, after, product)
  {
    forall id, k | id in s.images && s.images[id].product == product && Names(s.images[id], k) ensures k in Superseded(s, product) && k != 0 {
      assert OwnKey(s, product, k);
      SupersededAreOwn(s, product, k);
    }
  }

  /** A replacement that does not succeed changes no row, whichever call failed. */
  lemma ReplacedOnlyIf(s: Store, product: nat, uploads: seq<Upload>, f: ReplaceFaults)
    requires Inv(s) && !Succeeds(uploads, f)
    ensures var after := Replace(s, product, uploads, f);
            after.images == s.images && after.nextImage == s.nextImage && FilesKept(s, after)
  {
    if !NoneFails(uploads) {
      var i :| 0 <= i < |uploads| && !uploads[i].save.TempSaved?;
      StageFails(InitialStaging(s), ProtectedNames(s, product), product, uploads, i);
    }
    forall k | k in s.blobs ensures k in Replace(s, product, uploads, f).blobs && Replace(s, product, uploads, f).blobs[k] == s.blobs[k] {
      ReplaceBlob(s, product, uploads, f, k);
    }
  }

  // ---------- One deletion ----------

  /** An intent's attempt is counted; the bytes go when the delete takes effect; the intent goes only when the
      delete returned and dropping it worked. Nothing else changes. */
  lemma SweepOutcome(s: Store, k: Key, f: SweepFaults)
    ensures var after := Sweep(s, k, f);
            && after == s.(blobs := after.blobs, outbox := after.outbox)
            && (k !in s.outbox || f.attemptRaises ==> after == s)
            && (k in s.outbox && !f.attemptRaises ==>
                  && after.blobs == (if f.delete.Kept? then s.blobs else s.blobs - {k})
                  && after.outbox == if f.delete.Gone? && !f.forgetRaises then s.outbox - {k} else s.outbox[k := s.outbox[k] + 1])
  {
    if k in s.outbox {
      assert s.outbox[k := s.outbox[k] + 1] - {k} == s.outbox - {k};
    }
  }
}
