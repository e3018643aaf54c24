/** What every step of the gallery lifecycle keeps, with a failure allowed at every call. */
module GalleryInvariant {
  import opened Base
  import opened Gallery

  /** The committed steps. Deletion is split into its three parts, so that the passes of several
      workers may interleave; a worker may hold a key long after another one finished with it. */
  datatype Event =
    | Replacing(product: nat, uploads: seq<Upload>, replaceFaults: ReplaceFaults)
    | Promoting(id: nat, promoteFaults: PromoteFaults)
    | Attempting(key: Key)
    | Deleting(key: Key, deletion: Deletion)
    | Forgetting(key: Key)

  function Step(s: Store, e: Event): Store {
    match e
    case Replacing(product, uploads, f) => Replace(s, product, uploads, f)
    case Promoting(id, f) => Promote(s, id, f).0
    case Attempting(k) => Attempt(s, k)
    case Deleting(k, d) => DeleteBytes(s, k, d)
    case Forgetting(k) => Forget(s, k)
  }

  // ---------- The invariant ----------

  predicate IsLegacy(s: Store, k: Key) {
    k != 0 && k in s.legacy.Values
  }

  /** The names a row stands for. */
  predicate Names(image: Image, k: Key) {
    k != 0 && (k == image.name || k == image.owned)
  }

  ghost predicate IsLive(s: Store, k: Key) {
    exists id :: id in s.images && Names(s.images[id], k)
  }

  predicate Holds(s: Store, k: Key, digest: Digest) {
    k in s.blobs && Sha256(s.blobs[k]) == digest
  }

  /** A promoted row has its bytes at its name; a pending row has them at its temporary or its
      owned key, and a temporary key never holds anything else. */
  predicate RowSound(s: Store, image: Image) {
    && image.name != 0
    && (image.state.Promoted? ==>
          && Holds(s, image.name, image.digest)
          && (image.owned == 0 || image.owned == image.name))
    && (image.state.Pending? ==>
          && image.owned != 0 && image.owned != image.name
          && (image.name in s.blobs ==> Holds(s, image.name, image.digest))
          && (Holds(s, image.name, image.digest) || Holds(s, image.owned, image.digest)))
  }

  ghost predicate KeysDrawn(s: Store) {
    && s.nextKey > 0
    && (forall id :: id in s.images ==> id < s.nextImage && s.images[id].name < s.nextKey && s.images[id].owned < s.nextKey)
    && (forall k :: k in s.blobs ==> 0 < k < s.nextKey)
    && (forall k :: k in s.outbox ==> 0 < k < s.nextKey)
    && (forall k :: k in s.lost ==> 0 < k < s.nextKey)
    && (forall k :: k in s.legacy.Values ==> k < s.nextKey)
  }

  ghost predicate Disjoint(s: Store) {
    && (forall id, k :: id in s.images && Names(s.images[id], k) ==> k !in s.outbox && k !in s.lost && !IsLegacy(s, k))
    && (forall a, b, k :: a in s.images && b in s.images && Names(s.images[a], k) && Names(s.images[b], k) ==> a == b)
    && (forall k :: IsLegacy(s, k) ==> k !in s.outbox && k !in s.lost)
  }

  ghost predicate Accounted(s: Store) {
    forall k :: k in s.blobs ==> IsLegacy(s, k) || IsLive(s, k) || k in s.outbox || k in s.lost
  }

  ghost predicate Inv(s: Store) {
    && KeysDrawn(s)
    && Disjoint(s)
    && Accounted(s)
    && (forall id :: id in s.images ==> RowSound(s, s.images[id]))
  }

  /** A key that no row stands for and that is no legacy name: what a late worker may still hold. */
  ghost predicate Dead(s: Store, k: Key) {
    0 < k < s.nextKey && !IsLive(s, k) && !IsLegacy(s, k)
  }

  /** What the deletion steps need. Workers always meet it: GalleryRuns derives it from the outbox. */
  ghost predicate Enabled(s: Store, e: Event) {
    match e
    case Deleting(k, _) => Dead(s, k)
    case Forgetting(k) => Dead(s, k) && k !in s.blobs
    case _ => true
  }

  // ---------- Replacement ----------

  predicate Filed(files: seq<(Key, Deletion)>, k: Key) {
    exists i :: 0 <= i < |files| && files[i].0 == k
  }

  lemma FiledAppend(files: seq<(Key, Deletion)>, f: (Key, Deletion))
    ensures forall k :: Filed(files + [f], k) <==> Filed(files, k) || k == f.0
  {
    forall k
      ensures Filed(files + [f], k) <==> Filed(files, k) || k == f.0
    {
      if Filed(files, k) {
        var i :| 0 <= i < |files| && files[i].0 == k;
        assert (files + [f])[i].0 == k;
      }
      assert (files + [f])[|files|].0 == f.0;
    }
  }

  /** What a staging in progress has done to storage: fresh files, nothing else. */
  ghost predicate FilesSound(s: Store, st: Staging) {
    && s.nextKey <= st.nextKey
    && (forall k :: k in s.blobs ==> k in st.blobs && st.blobs[k] == s.blobs[k])
    && (forall k :: k in st.blobs ==> k in s.blobs || Filed(st.files, k))
    && (forall k: Key :: Filed(st.files, k) ==> s.nextKey <= k < st.nextKey)
  }

  /** The rows it has prepared: pending, exact bytes at the temporary key, nothing at the owned key. */
  ghost predicate RowsSound(s: Store, product: nat, st: Staging) {
    && (forall i :: 0 <= i < |st.rows| ==> NewRow(s, product, st, st.rows[i]))
    && (forall i, j :: 0 <= i < j < |st.rows| ==> st.rows[i].owned < st.rows[j].name)
    && (!st.failed ==> forall k: Key :: Filed(st.files, k) ==> Prepared(st.rows, k))
  }

  predicate Prepared(rows: seq<Image>, k: Key) {
    exists i :: 0 <= i < |rows| && rows[i].name == k
  }

  predicate NewRow(s: Store, product: nat, st: Staging, row: Image) {
    && row.state.Pending? && row.product == product
    && s.nextKey <= row.name && row.owned == row.name + 1 && row.owned < st.nextKey
    && Holds(s.(blobs := st.blobs), row.name, row.digest)
  }

  lemma StageOneFiles(s: Store, st: Staging, protected: set<Key>, product: nat, u: Upload)
    requires KeysDrawn(s) && FilesSound(s, st)
    ensures FilesSound(s, StageOne(st, protected, product, u))
  {
    FiledAppend(st.files, (st.nextKey, u.cleanup));
    FiledAppend(st.files, (st.nextKey + 2, u.cleanup));
  }

  lemma NewRowStays(s: Store, product: nat, st: Staging, next: Staging, row: Image)
    requires NewRow(s, product, st, row) && st.nextKey <= next.nextKey
    requires forall k :: k in st.blobs ==> k in next.blobs && next.blobs[k] == st.blobs[k]
    ensures NewRow(s, product, next, row)
  {
  }

  lemma PreparedAppend(rows: seq<Image>, row: Image)
    ensures forall k :: Prepared(rows, k) || k == row.name ==> Prepared(rows + [row], k)
  {
    forall k | Prepared(rows, k)
      ensures Prepared(rows + [row], k)
    {
      var i :| 0 <= i < |rows| && rows[i].name == k;
      assert (rows + [row])[i].name == k;
    }
    assert (rows + [row])[|rows|].name == row.name;
  }

  /** Storage only gains keys that were not in use. */
  lemma StageOneExtends(s: Store, st: Staging, protected: set<Key>, product: nat, u: Upload)
    requires KeysDrawn(s) && FilesSound(s, st)
    ensures var next := StageOne(st, protected, product, u);
            st.nextKey <= next.nextKey && forall k :: k in st.blobs ==> k in next.blobs && next.blobs[k] == st.blobs[k]
  {
    forall k | k in st.blobs
      ensures k < st.nextKey
    {
      assert k in s.blobs || Filed(st.files, k);
    }
  }

  lemma StageOneSaves(st: Staging, protected: set<Key>, product: nat, u: Upload)
    requires !st.failed
    ensures var (next, row) := (StageOne(st, protected, product, u), Image(product, st.nextKey, st.nextKey + 1, Sha256(u.content), Pending));
            if next.failed then next.rows == st.rows
            else
              && next.rows == st.rows + [row] && next.files == st.files + [(row.name, u.cleanup)]
              && next.nextKey == row.owned + 1 && next.blobs == st.blobs[row.name := u.content]
  {
  }

  lemma StageOneRows(s: Store, st: Staging, protected: set<Key>, product: nat, u: Upload)
    requires KeysDrawn(s) && FilesSound(s, st) && RowsSound(s, product, st) && !st.failed
    ensures RowsSound(s, product, StageOne(st, protected, product, u))
  {
    var next := StageOne(st, protected, product, u);
    StageOneExtends(s, st, protected, product, u);
    StageOneSaves(st, protected, product, u);
    forall i | 0 <= i < |st.rows|
      ensures NewRow(s, product, next, st.rows[i]) && st.rows[i].owned < st.nextKey
    {
      assert NewRow(s, product, st, st.rows[i]);
      NewRowStays(s, product, st, next, st.rows[i]);
    }
    if !next.failed {
      var row := Image(product, st.nextKey, st.nextKey + 1, Sha256(u.content), Pending);
      AppendRow(s, product, st, next, row, u.cleanup);
    }
  }

  lemma AppendRow(s: Store, product: nat, st: Staging, next: Staging, row: Image, cleanup: Deletion)
    requires RowsSound(s, product, st) && !st.failed
    requires next.rows == st.rows + [row] && next.files == st.files + [(row.name, cleanup)]
    requires NewRow(s, product, next, row)
    requires forall i :: 0 <= i < |st.rows| ==> NewRow(s, product, next, st.rows[i]) && st.rows[i].owned < row.name
    ensures RowsSound(s, product, next)
  {
    FiledAppend(st.files, (row.name, cleanup));
    PreparedAppend(st.rows, row);
  }

  lemma {:induction false} StageSound(s: Store, st: Staging, protected: set<Key>, product: nat, uploads: seq<Upload>)
    requires KeysDrawn(s) && FilesSound(s, st) && RowsSound(s, product, st)
    ensures FilesSound(s, Stage(st, protected, product, uploads)) && RowsSound(s, product, Stage(st, protected, product, uploads))
    decreases |uploads|
  {
    if uploads != [] && !st.failed {
      StageOneFiles(s, st, protected, product, uploads[0]);
      StageOneRows(s, st, protected, product, uploads[0]);
      StageSound(s, StageOne(st, protected, product, uploads[0]), protected + {st.nextKey, st.nextKey + 1}, product, uploads[1..]);
    }
  }

  /** A cleanup leaves, of the staged files, only those whose deletion failed. */
  lemma {:induction false} CleanedBlobsAre(blobs: map<Key, Bytes>, files: seq<(Key, Deletion)>)
    ensures var r := CleanedBlobs(blobs, files);
            && (forall k :: k in r ==> k in blobs && r[k] == blobs[k])
            && (forall k :: k in blobs && !Filed(files, k) ==> k in r)
            && (forall k :: k in r && Filed(files, k) ==> k in FailedKeys(files))
  {
    if files != [] {
      var n := |files| - 1;
      CleanedBlobsAre(blobs, files[..n]);
      assert files == files[..n] + [files[n]];
      FiledAppend(files[..n], files[n]);
      forall k | k in FailedKeys(files[..n])
        ensures k in FailedKeys(files)
      {
        var i :| 0 <= i < n && !files[..n][i].1.Gone? && files[..n][i].0 == k;
        assert !files[i].1.Gone? && files[i].0 == k;
      }
    }
  }

  lemma LiveSame(s: Store, after: Store, k: Key)
    requires after.images == s.images
    ensures IsLive(after, k) <==> IsLive(s, k)
  {
  }

  /** Storage and outbox change only at fresh keys: every row stays as it was. */
  lemma RowsUntouched(s: Store, after: Store)
    requires Inv(s)
    requires after.images == s.images && after.legacy == s.legacy && after.nextImage == s.nextImage && s.nextKey <= after.nextKey
    requires forall k :: k in s.blobs ==> k in after.blobs && after.blobs[k] == s.blobs[k]
    requires forall k :: k in after.blobs ==> k in s.blobs || s.nextKey <= k < after.nextKey
    requires forall k :: k in after.outbox ==> k in s.outbox || s.nextKey <= k < after.nextKey
    requires forall k :: k in after.lost ==> k in s.lost || s.nextKey <= k < after.nextKey
    ensures KeysDrawn(after) && Disjoint(after)
    ensures forall id :: id in after.images ==> RowSound(after, after.images[id])
  {
    forall id | id in s.images
      ensures RowSound(after, s.images[id])
    {
      assert RowSound(s, s.images[id]);
    }
    assert forall k :: IsLegacy(after, k) <==> IsLegacy(s, k);
  }

  lemma RollbackKeepsInv(s: Store, st: Staging, persistRaises: bool)
    requires Inv(s) && FilesSound(s, st)
    ensures Inv(RolledBack(s, st, persistRaises))
  {
    var after := RolledBack(s, st, persistRaises);
    CleanedBlobsAre(st.blobs, st.files);
    forall k | k in FailedKeys(st.files)
      ensures s.nextKey <= k < st.nextKey
    {
      assert Filed(st.files, k);
    }
    RowsUntouched(s, after);
    forall k | k in after.blobs
      ensures IsLegacy(after, k) || IsLive(after, k) || k in after.outbox || k in after.lost
    {
      LiveSame(s, after, k);
      if k !in s.blobs {
        assert k in FailedKeys(st.files);
      }
    }
  }

  /** A replaced gallery gives up exactly the keys that its rows stand for. */
  lemma SupersededAreOwn(s: Store, product: nat, k: Key)
    requires Inv(s)
    ensures k in Superseded(s, product) <==> OwnKey(s, product, k)
  {
    if k in Superseded(s, product) {
      var id :| id in ImagesOf(s, product) && k in KeysGivenUp(s.images[id]);
      assert RowSound(s, s.images[id]);
      assert Names(s.images[id], k);
    }
    if OwnKey(s, product, k) {
      var id :| id in s.images && s.images[id].product == product && Names(s.images[id], k);
      assert RowSound(s, s.images[id]);
      assert !IsLegacy(s, k);
      assert LegacyName(s, product) == 0 || IsLegacy(s, LegacyName(s, product));
      assert id in ImagesOf(s, product) && k in KeysGivenUp(s.images[id]);
    }
  }

  ghost predicate OwnKey(s: Store, product: nat, k: Key) {
    exists id :: id in s.images && s.images[id].product == product && Names(s.images[id], k)
  }

  lemma OwnKeyFacts(s: Store, product: nat, k: Key)
    requires Inv(s) && OwnKey(s, product, k)
    ensures 0 < k < s.nextKey && !IsLegacy(s, k) && k !in s.lost
    ensures forall id :: id in s.images && Names(s.images[id], k) ==> s.images[id].product == product
  {
  }

  /** Every row after the commit: an old row of another product or a new one. */
  lemma CommittedRow(s: Store, product: nat, st: Staging, id: nat)
    requires forall id :: id in s.images ==> id < s.nextImage
    ensures var after := Committed(s, product, st);
            && (id in after.images <==>
                  (id in s.images && s.images[id].product != product) || s.nextImage <= id < s.nextImage + |st.rows|)
            && (id in after.images ==>
                  after.images[id] == if id < s.nextImage then s.images[id] else st.rows[id - s.nextImage])
  {
    var kept := map id | id in s.images && s.images[id].product != product :: s.images[id];
    var images := Insert(kept, s.nextImage, st.rows);
    assert Committed(s, product, st).images == images;
    assert id in images <==> id in kept || s.nextImage <= id < s.nextImage + |st.rows|;
  }

  /** Old rows keep old names; new rows have new ones. */
  lemma CommittedNames(s: Store, product: nat, st: Staging, id: nat)
    requires Inv(s) && RowsSound(s, product, st) && id in Committed(s, product, st).images
    ensures var row := Committed(s, product, st).images[id];
            if id < s.nextImage then id in s.images && s.images[id].product != product && row == s.images[id]
              && row.name < s.nextKey && row.owned < s.nextKey
            else id < s.nextImage + |st.rows| && NewRow(s, product, st, row) && s.nextKey <= row.name < row.owned < st.nextKey
  {
    CommittedRow(s, product, st, id);
    if id >= s.nextImage {
      assert NewRow(s, product, st, st.rows[id - s.nextImage]);
    }
  }

  lemma OldRowIsSound(s: Store, after: Store, image: Image)
    requires RowSound(s, image)
    requires forall k :: k in s.blobs ==> k in after.blobs && after.blobs[k] == s.blobs[k]
    requires image.name in after.blobs ==> image.name in s.blobs
    ensures RowSound(after, image)
  {
  }

  lemma NewRowIsSound(s: Store, product: nat, st: Staging, after: Store, row: Image)
    requires NewRow(s, product, st, row) && after.blobs == st.blobs && s.nextKey > 0
    ensures RowSound(after, row)
  {
  }

  lemma CommittedRowIsSound(s: Store, product: nat, st: Staging, id: nat)
    requires Inv(s) && FilesSound(s, st) && RowsSound(s, product, st) && id in Committed(s, product, st).images
    ensures RowSound(Committed(s, product, st), Committed(s, product, st).images[id])
  {
    var after := Committed(s, product, st);
    CommittedNames(s, product, st, id);
    if id < s.nextImage {
      OldBlobs(s, st, s.images[id].name);
      OldRowIsSound(s, after, s.images[id]);
    } else {
      NewRowIsSound(s, product, st, after, after.images[id]);
    }
  }

  lemma CommitKeepsRows(s: Store, product: nat, st: Staging)
    requires Inv(s) && FilesSound(s, st) && RowsSound(s, product, st)
    ensures forall id :: id in Committed(s, product, st).images ==>
              RowSound(Committed(s, product, st), Committed(s, product, st).images[id])
  {
    forall id | id in Committed(s, product, st).images
      ensures RowSound(Committed(s, product, st), Committed(s, product, st).images[id])
    {
      CommittedRowIsSound(s, product, st, id);
    }
  }

  lemma OldBlobs(s: Store, st: Staging, k: Key)
    requires FilesSound(s, st) && k < s.nextKey
    ensures k in st.blobs <==> k in s.blobs
  {
    assert !Filed(st.files, k);
  }

  lemma CommittedOutboxDrawn(s: Store, product: nat, st: Staging, k: Key)
    requires Inv(s) && FilesSound(s, st) && k in Committed(s, product, st).outbox
    ensures 0 < k < st.nextKey
  {
    if k in Superseded(s, product) {
      SupersededAreOwn(s, product, k);
      OwnKeyFacts(s, product, k);
    }
  }

  lemma CommitKeepsKeysDrawn(s: Store, product: nat, st: Staging)
    requires Inv(s) && FilesSound(s, st) && RowsSound(s, product, st)
    ensures KeysDrawn(Committed(s, product, st))
  {
    var after := Committed(s, product, st);
    forall id | id in after.images
      ensures id < after.nextImage && after.images[id].name < after.nextKey && after.images[id].owned < after.nextKey
    {
      CommittedNames(s, product, st, id);
    }
    forall k | k in after.outbox
      ensures 0 < k < after.nextKey
    {
      CommittedOutboxDrawn(s, product, st, k);
    }
  }

  /** A live key stays live or goes to the outbox. */
  lemma LiveAfterCommit(s: Store, product: nat, st: Staging, k: Key)
    requires Inv(s) && IsLive(s, k)
    ensures IsLive(Committed(s, product, st), k) || k in Committed(s, product, st).outbox
  {
    var id :| id in s.images && Names(s.images[id], k);
    CommittedRow(s, product, st, id);
    if s.images[id].product == product {
      assert OwnKey(s, product, k);
      SupersededAreOwn(s, product, k);
    } else {
      assert Names(Committed(s, product, st).images[id], k);
    }
  }

  lemma NewFileIsLive(s: Store, product: nat, st: Staging, k: Key)
    requires forall id :: id in s.images ==> id < s.nextImage
    requires Prepared(st.rows, k) && k != 0
    ensures IsLive(Committed(s, product, st), k)
  {
    var i :| 0 <= i < |st.rows| && st.rows[i].name == k;
    CommittedRow(s, product, st, s.nextImage + i);
    assert Names(Committed(s, product, st).images[s.nextImage + i], k);
  }

  lemma CommitKeepsAccounted(s: Store, product: nat, st: Staging)
    requires Inv(s) && FilesSound(s, st) && RowsSound(s, product, st) && !st.failed
    ensures Accounted(Committed(s, product, st))
  {
    var after := Committed(s, product, st);
    forall k | k in after.blobs
      ensures IsLegacy(after, k) || IsLive(after, k) || k in after.outbox || k in after.lost
    {
      if k !in s.blobs {
        assert Filed(st.files, k);
        NewFileIsLive(s, product, st, k);
      } else if IsLive(s, k) {
        LiveAfterCommit(s, product, st, k);
      } else {
        assert IsLegacy(s, k) ==> IsLegacy(after, k);
      }
    }
  }

  lemma CommittedNameIsClear(s: Store, product: nat, st: Staging, id: nat, k: Key)
    requires Inv(s) && RowsSound(s, product, st)
    requires id in Committed(s, product, st).images && Names(Committed(s, product, st).images[id], k)
    ensures k !in Committed(s, product, st).outbox && k !in s.lost && !IsLegacy(s, k)
  {
    CommittedNames(s, product, st, id);
    SupersededAreOwn(s, product, k);
    if k in Superseded(s, product) {
      OwnKeyFacts(s, product, k);
    }
  }

  lemma CommittedNameIsUnique(s: Store, product: nat, st: Staging, a: nat, b: nat, k: Key)
    requires Inv(s) && RowsSound(s, product, st)
    requires a in Committed(s, product, st).images && Names(Committed(s, product, st).images[a], k)
    requires b in Committed(s, product, st).images && Names(Committed(s, product, st).images[b], k)
    ensures a == b
  {
    CommittedNames(s, product, st, a);
    CommittedNames(s, product, st, b);
    CommittedRow(s, product, st, a);
    CommittedRow(s, product, st, b);
  }

  lemma CommitKeepsDisjoint(s: Store, product: nat, st: Staging)
    requires Inv(s) && RowsSound(s, product, st)
    ensures Disjoint(Committed(s, product, st))
  {
    var after := Committed(s, product, st);
    forall id, k | id in after.images && Names(after.images[id], k)
      ensures k !in after.outbox && k !in after.lost && !IsLegacy(after, k)
    {
      CommittedNameIsClear(s, product, st, id, k);
    }
    forall a, b, k | a in after.images && b in after.images && Names(after.images[a], k) && Names(after.images[b], k)
      ensures a == b
    {
      CommittedNameIsUnique(s, product, st, a, b, k);
    }
    forall k | IsLegacy(after, k)
      ensures k !in after.outbox && k !in after.lost
    {
      assert IsLegacy(s, k);
      SupersededAreOwn(s, product, k);
      if k in Superseded(s, product) {
        OwnKeyFacts(s, product, k);
      }
    }
  }

  lemma ReplaceKeepsInv(s: Store, product: nat, uploads: seq<Upload>, f: ReplaceFaults)
    requires Inv(s)
    ensures Inv(Replace(s, product, uploads, f))
  {
    if |uploads| <= 4 && !f.lockRaises {
      var st := Stage(InitialStaging(s), ProtectedNames(s, product), product, uploads);
      StageSound(s, InitialStaging(s), ProtectedNames(s, product), product, uploads);
      RollbackKeepsInv(s, st, f.persistRaises);
      if !st.failed {
        CommitKeepsRows(s, product, st);
        CommitKeepsKeysDrawn(s, product, st);
        CommitKeepsAccounted(s, product, st);
        CommitKeepsDisjoint(s, product, st);
      }
    }
  }

  // ---------- Promotion ----------

  /** Blobs change at one key of one row, which stays sound: nothing else notices. */
  lemma OwnBlobChanges(s: Store, id: nat, k: Key, blobs: map<Key, Bytes>)
    requires Inv(s) && id in s.images && Names(s.images[id], k)
    requires forall h :: h != k ==> (h in blobs <==> h in s.blobs)
    requires forall h :: h != k && h in blobs ==> blobs[h] == s.blobs[h]
    requires RowSound(s.(blobs := blobs), s.images[id])
    ensures Inv(s.(blobs := blobs))
  {
    var after := s.(blobs := blobs);
    forall other | other in s.images
      ensures RowSound(after, s.images[other])
    {
      assert RowSound(s, s.images[other]);
      if other != id {
        assert !Names(s.images[other], k);
      }
    }
    forall h | h in blobs
      ensures IsLegacy(after, h) || IsLive(after, h) || h in after.outbox || h in after.lost
    {
      assert IsLegacy(after, h) <==> IsLegacy(s, h);
      LiveSame(s, after, h);
      if h == k { assert IsLive(s, h); }
    }
    assert KeysDrawn(after);
    assert Disjoint(after) by {
      assert forall h :: IsLegacy(after, h) <==> IsLegacy(s, h);
    }
  }

  /** A renamed copy is cleaned up like a staged file. */
  lemma StrayKeepsInv(s: Store, content: Bytes, d: Deletion, persistRaises: bool)
    requires Inv(s)
    ensures var stray := s.nextKey;
            Inv(RecordLeftovers(s.(nextKey := stray + 1, blobs := Delete(s.blobs[stray := content], stray, d)),
                                if d.Gone? then {} else {stray}, persistRaises))
  {
    var stray := s.nextKey;
    var file := (stray, d);
    var st := Staging(s.blobs[stray := content], stray + 1, [file], [], true);
    FiledAppend([], file);
    assert [] + [file] == [file];
    assert FilesSound(s, st);
    RollbackKeepsInv(s, st, persistRaises);
    assert CleanedBlobs(st.blobs, []) == st.blobs;
    assert CleanedBlobs(st.blobs, st.files) == Delete(st.blobs, stray, d);
    assert FailedKeys(st.files) == if d.Gone? then {} else {stray} by {
      assert st.files[0] == file;
    }
  }

  lemma WriteOwnedKeepsInv(s: Store, id: nat, bytes: Bytes)
    requires Inv(s) && id in s.images && s.images[id].state.Pending? && s.images[id].owned !in s.blobs
    ensures Inv(s.(blobs := s.blobs[s.images[id].owned := bytes]))
  {
    assert RowSound(s, s.images[id]);
    OwnBlobChanges(s, id, s.images[id].owned, s.blobs[s.images[id].owned := bytes]);
  }

  lemma DeleteTempKeepsInv(s: Store, id: nat, d: Deletion)
    requires Inv(s) && id in s.images && s.images[id].state.Pending? && Holds(s, s.images[id].owned, s.images[id].digest)
    ensures Inv(s.(blobs := Delete(s.blobs, s.images[id].name, d)))
  {
    assert RowSound(s, s.images[id]);
    OwnBlobChanges(s, id, s.images[id].name, Delete(s.blobs, s.images[id].name, d));
  }

  predicate Wrote(s: Store, after: Store, k: Key, bytes: Bytes) {
    after == s.(blobs := s.blobs[k := bytes])
  }

  /** What a copy does to the store: nothing, a write of the free owned key, or a stray cleaned up. */
  lemma CopyShape(s: Store, image: Image, f: PromoteFaults)
    ensures var (after, verified) := CopyToOwned(s, image, f);
            && (after == s
                || (image.owned !in s.blobs && exists bytes :: Wrote(s, after, image.owned, bytes))
                || (image.name in s.blobs && f.save.Renamed? && after == StrayCopy(s, s.blobs[image.name], f)))
            && (verified ==> Holds(after, image.owned, image.digest))
  {
    var after := CopyToOwned(s, image, f).0;
    if f.save.SaveRaised? && f.save.partial.Some? && after != s {
      assert Wrote(s, after, image.owned, f.save.partial.value);
    } else if f.save.Saved? && after != s {
      assert Wrote(s, after, image.owned, s.blobs[image.name]);
    } else if f.save.Corrupted? && after != s {
      assert Wrote(s, after, image.owned, f.save.bytes);
    }
  }

  function StrayCopy(s: Store, content: Bytes, f: PromoteFaults): Store {
    RecordLeftovers(s.(nextKey := s.nextKey + 1, blobs := Delete(s.blobs[s.nextKey := content], s.nextKey, f.strayCleanup)),
                    if f.strayCleanup.Gone? then {} else {s.nextKey}, f.persistRaises)
  }

  /** Copying keeps the invariant, the rows and the temporary bytes; when it succeeds, the owned
      key holds the right bytes. */
  lemma CopyKeepsInv(s: Store, id: nat, f: PromoteFaults)
    requires Inv(s) && id in s.images && s.images[id].state.Pending?
    ensures var (after, verified) := CopyToOwned(s, s.images[id], f);
            && Inv(after)
            && after.images == s.images && after.legacy == s.legacy && after.nextImage == s.nextImage
            && (verified ==> Holds(after, s.images[id].owned, s.images[id].digest))
  {
    var image := s.images[id];
    CopyShape(s, image, f);
    var after := CopyToOwned(s, image, f).0;
    if after != s {
      if f.save.Renamed? && image.name in s.blobs && after == StrayCopy(s, s.blobs[image.name], f) {
        StrayKeepsInv(s, s.blobs[image.name], f.strayCleanup, f.persistRaises);
      } else {
        var bytes :| Wrote(s, after, image.owned, bytes);
        WriteOwnedKeepsInv(s, id, bytes);
      }
    }
  }

  function WithPromoted(s: Store, id: nat): Store
    requires id in s.images
  {
    s.(images := s.images[id := s.images[id].(name := s.images[id].owned, state := Promoted)])
  }

  lemma PromotedNames(s: Store, id: nat, other: nat, k: Key)
    requires id in s.images && other in s.images
    ensures Names(WithPromoted(s, id).images[other], k) ==> Names(s.images[other], k)
    ensures Names(s.images[other], k) && !(other == id && k == s.images[id].name) ==> Names(WithPromoted(s, id).images[other], k)
  {
  }

  lemma PromotedRowKeepsDisjoint(s: Store, id: nat)
    requires Inv(s) && id in s.images
    ensures Disjoint(WithPromoted(s, id))
  {
    var after := WithPromoted(s, id);
    assert forall h :: IsLegacy(after, h) <==> IsLegacy(s, h);
    forall other, k | other in after.images && Names(after.images[other], k)
      ensures Names(s.images[other], k)
    {
      PromotedNames(s, id, other, k);
    }
  }

  lemma PromotedRowKeepsAccounted(s: Store, id: nat)
    requires Inv(s) && id in s.images && s.images[id].name !in s.blobs
    ensures Accounted(WithPromoted(s, id))
  {
    var after := WithPromoted(s, id);
    forall k | k in after.blobs
      ensures IsLegacy(after, k) || IsLive(after, k) || k in after.outbox || k in after.lost
    {
      assert IsLegacy(after, k) <==> IsLegacy(s, k);
      if IsLive(s, k) {
        var other :| other in s.images && Names(s.images[other], k);
        PromotedNames(s, id, other, k);
        assert Names(after.images[other], k);
      }
    }
  }

  lemma PromotedRowKeepsInv(s: Store, id: nat)
    requires Inv(s) && id in s.images && s.images[id].state.Pending?
    requires Holds(s, s.images[id].owned, s.images[id].digest) && s.images[id].name !in s.blobs
    ensures Inv(WithPromoted(s, id))
  {
    PromotedRowKeepsDisjoint(s, id);
    PromotedRowKeepsAccounted(s, id);
    var after := WithPromoted(s, id);
    forall other | other in after.images
      ensures RowSound(after, after.images[other])
    {
      assert RowSound(s, s.images[other]);
    }
    assert KeysDrawn(after);
  }

  lemma PromoteKeepsInv(s: Store, id: nat, f: PromoteFaults)
    requires Inv(s)
    ensures Inv(Promote(s, id, f).0)
  {
    if !f.getRaises && id in s.images && s.images[id].state.Pending? {
      var image := s.images[id];
      CopyKeepsInv(s, id, f);
      var (copied, verified) := CopyToOwned(s, image, f);
      if verified {
        DeleteTempKeepsInv(copied, id, f.tempDelete);
        assert RowSound(copied, image);
        var deleted := copied.(blobs := Delete(copied.blobs, image.name, f.tempDelete));
        if f.tempDelete.Gone? {
          PromotedRowKeepsInv(deleted, id);
        }
      }
    }
  }

  // ---------- Deletion ----------

  /** Bytes at dead keys and outbox bookkeeping concern no row. */
  lemma DeadKeyChanges(s: Store, after: Store)
    requires Inv(s)
    requires after == s.(blobs := after.blobs, outbox := after.outbox)
    requires forall k :: k in after.blobs ==> k in s.blobs && after.blobs[k] == s.blobs[k]
    requires forall k :: k in s.blobs && k !in after.blobs ==> Dead(s, k)
    requires forall k :: k in after.outbox ==> k in s.outbox
    requires forall k :: k in s.outbox && k !in after.outbox ==> k !in after.blobs
    ensures Inv(after)
  {
    forall id | id in s.images
      ensures RowSound(after, s.images[id])
    {
      assert RowSound(s, s.images[id]);
      forall k | Names(s.images[id], k)
        ensures k in s.blobs ==> k in after.blobs
      {
        assert IsLive(s, k);
      }
      assert s.images[id].name != 0 && Names(s.images[id], s.images[id].name);
      assert s.images[id].owned != 0 ==> Names(s.images[id], s.images[id].owned);
    }
    forall k | k in after.blobs
      ensures IsLegacy(after, k) || IsLive(after, k) || k in after.outbox || k in after.lost
    {
      LiveSame(s, after, k);
      assert IsLegacy(after, k) <==> IsLegacy(s, k);
    }
    assert KeysDrawn(after);
    assert forall h :: IsLegacy(after, h) <==> IsLegacy(s, h);
  }

  /** Outbox entries are dead, so a worker may act on them. */
  lemma OutboxIsDead(s: Store, k: Key)
    requires Inv(s) && k in s.outbox
    ensures Dead(s, k)
  {
  }

  // ---------- Every step ----------

  lemma StepKeepsInv(s: Store, e: Event)
    requires Inv(s) && Enabled(s, e)
    ensures Inv(Step(s, e))
  {
    match e
    case Replacing(product, uploads, f) => ReplaceKeepsInv(s, product, uploads, f);
    case Promoting(id, f) => PromoteKeepsInv(s, id, f);
    case Attempting(k) => DeadKeyChanges(s, Attempt(s, k));
    case Deleting(k, d) => DeadKeyChanges(s, DeleteBytes(s, k, d));
    case Forgetting(k) => DeadKeyChanges(s, Forget(s, k));
  }
}
