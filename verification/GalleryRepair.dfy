/** The repair passes: what a faulty pass still achieves, where a fault-free pass ends, and why late
    deletion workers are harmless. */
module GalleryRepair {
  import opened Base
  import opened Gallery
  import opened GalleryInvariant

  // ---------- Frames: which keys a step touches ----------

  lemma RolledBackBlob(s: Store, st: Staging, persistRaises: bool, k: Key)
    requires FilesSound(s, st) && k < s.nextKey
    ensures k in RolledBack(s, st, persistRaises).blobs <==> k in s.blobs
    ensures k in s.blobs ==> RolledBack(s, st, persistRaises).blobs[k] == s.blobs[k]
  {
    CleanedBlobsAre(st.blobs, st.files);
    OldBlobs(s, st, k);
    assert !Filed(st.files, k);
  }

  function Staged(s: Store, product: nat, uploads: seq<Upload>): Staging {
    Stage(InitialStaging(s), ProtectedNames(s, product), product, uploads)
  }

  /** A replacement is refused, rolled back or committed. */
  lemma ReplaceCases(s: Store, product: nat, uploads: seq<Upload>, f: ReplaceFaults)
    ensures var (after, st) := (Replace(s, product, uploads, f), Staged(s, product, uploads));
            || after == s
            || after == RolledBack(s, st, f.persistRaises)
            || (!st.failed && !f.rowsRaise && !f.viewRaises && after == Committed(s, product, st))
    ensures FilesSound(s, Staged(s, product, uploads)) <== KeysDrawn(s)
    ensures RowsSound(s, product, Staged(s, product, uploads)) <== KeysDrawn(s)
  {
    if KeysDrawn(s) {
      StageSound(s, InitialStaging(s), ProtectedNames(s, product), product, uploads);
    }
  }

  /** A replacement, committed or not, leaves the bytes at every old key alone. */
  lemma ReplaceBlob(s: Store, product: nat, uploads: seq<Upload>, f: ReplaceFaults, k: Key)
    requires KeysDrawn(s) && k < s.nextKey
    ensures var after := Replace(s, product, uploads, f);
            && s.nextKey <= after.nextKey && after.legacy == s.legacy
            && (k in after.blobs <==> k in s.blobs)
            && (k in s.blobs ==> after.blobs[k] == s.blobs[k])
  {
    ReplaceCases(s, product, uploads, f);
    var st := Staged(s, product, uploads);
    RolledBackBlob(s, st, f.persistRaises, k);
    OldBlobs(s, st, k);
  }

  /** A promotion touches only the two keys of its row and fresh ones. */
  lemma PromoteBlob(s: Store, id: nat, f: PromoteFaults, k: Key)
    requires k < s.nextKey && (id in s.images ==> k != s.images[id].name && k != s.images[id].owned)
    ensures var after := Promote(s, id, f).0;
            && s.nextKey <= after.nextKey && after.legacy == s.legacy
            && (k in after.blobs <==> k in s.blobs)
            && (k in s.blobs ==> after.blobs[k] == s.blobs[k])
  {
  }

  /** Bytes at a key that no row stands for change only by deleting that very key. */
  lemma BlobFrame(s: Store, e: Event, k: Key)
    requires Inv(s) && 0 < k < s.nextKey && !IsLive(s, k) && !(e.Deleting? && e.key == k)
    ensures s.nextKey <= Step(s, e).nextKey && Step(s, e).legacy == s.legacy
    ensures k in Step(s, e).blobs <==> k in s.blobs
    ensures k in s.blobs ==> Step(s, e).blobs[k] == s.blobs[k]
  {
    match e
    case Replacing(product, uploads, f) => ReplaceBlob(s, product, uploads, f, k);
    case Promoting(id, f) =>
      assert id in s.images ==> !Names(s.images[id], k);
      PromoteBlob(s, id, f, k);
    case _ =>
  }

  /** The rows after a replacement: as before, or a commit. */
  lemma ReplaceRows(s: Store, product: nat, uploads: seq<Upload>, f: ReplaceFaults)
    requires Inv(s)
    ensures var after := Replace(s, product, uploads, f);
            var st := Staged(s, product, uploads);
            && FilesSound(s, st) && RowsSound(s, product, st)
            && (after.images == s.images
                || (!st.failed && !f.rowsRaise && !f.viewRaises && after == Committed(s, product, st)))
  {
    ReplaceCases(s, product, uploads, f);
  }

  /** A promotion changes at most its own row, from pending to promoted under its owned key. */
  lemma PromoteRows(s: Store, id: nat, f: PromoteFaults)
    ensures var after := Promote(s, id, f).0;
            || after.images == s.images
            || (&& id in s.images && s.images[id].state.Pending?
                && after.images == s.images[id := s.images[id].(name := s.images[id].owned, state := Promoted)])
  {
  }

  /** Row names after a step are old row names or freshly drawn ones. */
  lemma RowIsOldOrNew(s: Store, e: Event, id: nat, k: Key)
    requires Inv(s) && id in Step(s, e).images && Names(Step(s, e).images[id], k)
    ensures (id in s.images && Names(s.images[id], k)) || k >= s.nextKey
  {
    match e
    case Replacing(product, uploads, f) =>
      ReplaceRows(s, product, uploads, f);
      if Step(s, e).images != s.images {
        CommittedNames(s, product, Staged(s, product, uploads), id);
      }
    case Promoting(p, f) => PromoteRows(s, p, f);
    case _ =>
  }

  lemma LiveIsOldOrNew(s: Store, e: Event, k: Key)
    requires Inv(s) && IsLive(Step(s, e), k)
    ensures IsLive(s, k) || k >= s.nextKey
  {
    var id :| id in Step(s, e).images && Names(Step(s, e).images[id], k);
    RowIsOldOrNew(s, e, id, k);
  }

  lemma LegacyIsNotLive(s: Store, k: Key)
    requires Inv(s) && IsLegacy(s, k)
    ensures !IsLive(s, k) && 0 < k < s.nextKey
  {
  }

  /** No step of any run touches the bytes of a legacy image. */
  lemma LegacyBytesUntouched(s: Store, e: Event, k: Key)
    requires Inv(s) && Enabled(s, e) && IsLegacy(s, k)
    ensures Step(s, e).legacy == s.legacy
    ensures k in Step(s, e).blobs <==> k in s.blobs
    ensures k in s.blobs ==> Step(s, e).blobs[k] == s.blobs[k]
  {
    LegacyIsNotLive(s, k);
    BlobFrame(s, e, k);
  }

  /** A dead key stays dead, and once its bytes are gone they stay gone. So a deletion worker that
      read a key from the outbox may delete and forget it however late it runs. */
  lemma DeadForever(s: Store, e: Event, k: Key)
    requires Inv(s) && Enabled(s, e) && Dead(s, k)
    ensures Dead(Step(s, e), k)
    ensures k !in s.blobs ==> k !in Step(s, e).blobs
  {
    if IsLive(Step(s, e), k) {
      LiveIsOldOrNew(s, e, k);
    }
    if !(e.Deleting? && e.key == k) {
      BlobFrame(s, e, k);
    }
  }

  /** A committed row keeps its product and digest until a replacement of its own gallery commits.
      With the invariant: its bytes can be read under one of its keys for as long as it exists. */
  lemma CommittedImageLasts(s: Store, e: Event, id: nat)
    requires Inv(s) && id in s.images
    ensures id !in Step(s, e).images ==>
              e.Replacing? && e.product == s.images[id].product && !e.replaceFaults.rowsRaise && !e.replaceFaults.viewRaises
    ensures id in Step(s, e).images ==>
              && Step(s, e).images[id].product == s.images[id].product
              && Step(s, e).images[id].digest == s.images[id].digest
              && (s.images[id].state.Promoted? ==> Step(s, e).images[id] == s.images[id])
  {
    match e
    case Replacing(product, uploads, f) => ReplacementKeepsImage(s, product, uploads, f, id);
    case Promoting(p, f) => PromoteRows(s, p, f);
    case _ =>
  }

  lemma ReplacementKeepsImage(s: Store, product: nat, uploads: seq<Upload>, f: ReplaceFaults, id: nat)
    requires Inv(s) && id in s.images
    ensures var after := Replace(s, product, uploads, f);
            if id in after.images then after.images[id] == s.images[id]
            else product == s.images[id].product && !f.rowsRaise && !f.viewRaises
  {
    ReplaceRows(s, product, uploads, f);
    if Replace(s, product, uploads, f).images != s.images {
      CommittedRow(s, product, Staged(s, product, uploads), id);
    }
  }

  // ---------- Promotion passes ----------

  const NO_FAULTS := PromoteFaults(false, false, false, false, Saved, Gone, false, Gone, false, false)

  predicate IsPending(s: Store, id: nat) {
    id in s.images && s.images[id].state.Pending?
  }

  /** The one obstacle that retrying cannot remove: other bytes at the owned key. */
  predicate Stuck(s: Store, id: nat) {
    IsPending(s, id) && s.images[id].owned in s.blobs && Sha256(s.blobs[s.images[id].owned]) != s.images[id].digest
  }

  lemma FaultFreePromote(s: Store, id: nat)
    requires Inv(s) && IsPending(s, id)
    ensures var (after, result) := Promote(s, id, NO_FAULTS);
            if Stuck(s, id) then after == s && result == Error
            else
              && result == Done
              && after == WithPromoted(s.(blobs := after.blobs), id)
              && after.blobs.Keys == s.blobs.Keys - {s.images[id].name} + {s.images[id].owned}
  {
    assert RowSound(s, s.images[id]);
  }

  lemma OwnedKeysDiffer(s: Store, id: nat, other: nat)
    requires Inv(s) && id in s.images && other in s.images && other != id
    ensures IsPending(s, other) ==>
              && s.images[other].owned < s.nextKey
              && s.images[other].owned != s.images[id].name && s.images[other].owned != s.images[id].owned
  {
    if IsPending(s, other) {
      assert RowSound(s, s.images[other]);
      assert Names(s.images[other], s.images[other].owned) && !Names(s.images[id], s.images[other].owned);
    }
  }

  /** Promoting one row, with whatever faults, leaves every other row and its bytes alone. */
  lemma PromoteOther(s: Store, id: nat, f: PromoteFaults, other: nat)
    requires Inv(s) && other in s.images && other != id
    ensures var after := Promote(s, id, f).0;
            && other in after.images && after.images[other] == s.images[other]
            && (IsPending(after, other) <==> IsPending(s, other))
            && (Stuck(after, other) <==> Stuck(s, other))
  {
    var after := Promote(s, id, f).0;
    PromoteRows(s, id, f);
    assert other in after.images && after.images[other] == s.images[other];
    if IsPending(s, other) {
      PromoteOtherBlob(s, id, f, other);
    }
  }

  lemma PromoteOtherBlob(s: Store, id: nat, f: PromoteFaults, other: nat)
    requires Inv(s) && IsPending(s, other) && other != id
    ensures var (after, k) := (Promote(s, id, f).0, s.images[other].owned);
            (k in after.blobs <==> k in s.blobs) && (k in s.blobs ==> after.blobs[k] == s.blobs[k])
  {
    if id in s.images {
      OwnedKeysDiffer(s, id, other);
    }
    var k := s.images[other].owned;
    assert k < s.nextKey;
    PromoteBlob(s, id, f, k);
  }

  /** Rows that a pass does not visit keep their state. */
  lemma {:induction false} PassOther(s: Store, ids: seq<nat>, faults: nat -> PromoteFaults, other: nat)
    requires Inv(s) && other in s.images && other !in ids
    ensures var after := PromoteAll(s, ids, faults);
            && Inv(after)
            && other in after.images && after.images[other] == s.images[other]
            && (Stuck(after, other) <==> Stuck(s, other))
  {
    if ids != [] {
      var n := |ids| - 1;
      PassOther(s, ids[..n], faults, other);
      assert ids[n] in ids;
      PromoteKeepsInv(PromoteAll(s, ids[..n], faults), ids[n], faults(ids[n]));
      PromoteOther(PromoteAll(s, ids[..n], faults), ids[n], faults(ids[n]), other);
    }
  }

  ghost predicate Distinct(ids: seq<nat>) {
    forall i, j :: 0 <= i < j < |ids| ==> ids[i] != ids[j]
  }

  /** In a faulty pass a visited pending row whose own calls work is promoted exactly when it is not
      stuck, whatever happens to the rows before and after it. */
  lemma {:induction false} PassPromotesIndependently(s: Store, ids: seq<nat>, faults: nat -> PromoteFaults, id: nat)
    requires Inv(s) && Distinct(ids) && id in ids && IsPending(s, id) && faults(id) == NO_FAULTS
    ensures var after := PromoteAll(s, ids, faults);
            id in after.images && (after.images[id].state.Promoted? <==> !Stuck(s, id))
            && (Stuck(after, id) <==> Stuck(s, id))
  {
    var n := |ids| - 1;
    if ids[n] == id {
      assert id !in ids[..n];
      PassOther(s, ids[..n], faults, id);
      FaultFreePromote(PromoteAll(s, ids[..n], faults), id);
    } else {
      assert id in ids[..n] by {
        var i :| 0 <= i < |ids| && ids[i] == id;
        assert ids[..n][i] == id;
      }
      PassPromotesIndependently(s, ids[..n], faults, id);
      PassKeepsInv(s, ids[..n], faults);
      PromoteOther(PromoteAll(s, ids[..n], faults), ids[n], faults(ids[n]), id);
    }
  }

  lemma {:induction false} PassKeepsInv(s: Store, ids: seq<nat>, faults: nat -> PromoteFaults)
    requires Inv(s)
    ensures Inv(PromoteAll(s, ids, faults))
  {
    if ids != [] {
      var n := |ids| - 1;
      PassKeepsInv(s, ids[..n], faults);
      PromoteKeepsInv(PromoteAll(s, ids[..n], faults), ids[n], faults(ids[n]));
    }
  }

  // ---------- The whole repair ----------

  const NO_SWEEP_FAULTS := SweepFaults(false, Gone, false)

  function FaultFree(id: nat): PromoteFaults {
    NO_FAULTS
  }

  function FaultFreeSweep(k: Key): SweepFaults {
    NO_SWEEP_FAULTS
  }

  /** The rows that a pass visits: every pending one, once, in some order. */
  ghost predicate ListsPending(s: Store, ids: seq<nat>) {
    Distinct(ids) && forall id :: id in ids <==> IsPending(s, id)
  }

  ghost predicate ListsOutbox(s: Store, keys: seq<Key>) {
    forall k :: k in keys <==> k in s.outbox
  }

  function Repair(s: Store, ids: seq<nat>, keys: seq<Key>): Store {
    SweepAll(PromoteAll(s, ids, FaultFree), keys, FaultFreeSweep)
  }

  lemma FaultFreePromoteKeepsBooks(s: Store, id: nat)
    requires Inv(s)
    ensures var after := Promote(s, id, NO_FAULTS).0;
            after.outbox == s.outbox && after.lost == s.lost && after.legacy == s.legacy && after.images.Keys == s.images.Keys
  {
    if IsPending(s, id) {
      FaultFreePromote(s, id);
    }
  }

  lemma {:induction false} FaultFreePassKeepsBooks(s: Store, ids: seq<nat>)
    requires Inv(s)
    ensures var after := PromoteAll(s, ids, FaultFree);
            after.outbox == s.outbox && after.lost == s.lost && after.legacy == s.legacy && after.images.Keys == s.images.Keys
  {
    if ids != [] {
      var n := |ids| - 1;
      FaultFreePassKeepsBooks(s, ids[..n]);
      PassKeepsInv(s, ids[..n], FaultFree);
      FaultFreePromoteKeepsBooks(PromoteAll(s, ids[..n], FaultFree), ids[n]);
    }
  }

  lemma {:induction false} FaultFreeSweepAll(s: Store, keys: seq<Key>)
    ensures var after := SweepAll(s, keys, FaultFreeSweep);
            && after == s.(blobs := after.blobs, outbox := after.outbox)
            && (forall k :: k in after.blobs <==> k in s.blobs && !(k in keys && k in s.outbox))
            && (forall k :: k in after.blobs ==> after.blobs[k] == s.blobs[k])
            && (forall k :: k in after.outbox <==> k in s.outbox && k !in keys)
  {
    if keys != [] {
      var n := |keys| - 1;
      FaultFreeSweepAll(s, keys[..n]);
      assert keys == keys[..n] + [keys[n]];
      var before := SweepAll(s, keys[..n], FaultFreeSweep);
      if keys[n] in before.outbox {
        assert SweepAll(s, keys, FaultFreeSweep) == Forget(DeleteBytes(Attempt(before, keys[n]), keys[n], Gone), keys[n]);
      }
    }
  }

  /** From any reachable state one fault-free repair empties the outbox and promotes every pending
      row that is not stuck; a row stays pending exactly when it was stuck. */
  lemma RepairConverges(s: Store, ids: seq<nat>, keys: seq<Key>)
    requires Inv(s) && ListsPending(s, ids) && ListsOutbox(s, keys)
    ensures var after := Repair(s, ids, keys);
            && Inv(after)
            && after.outbox == map[]
            && after.images.Keys == s.images.Keys
            && (forall id :: IsPending(after, id) <==> Stuck(s, id))
            && (forall id :: Stuck(after, id) <==> Stuck(s, id))
  {
    var promoted := PromoteAll(s, ids, FaultFree);
    PassKeepsInv(s, ids, FaultFree);
    FaultFreePassKeepsBooks(s, ids);
    FaultFreeSweepAll(promoted, keys);
    var after := Repair(s, ids, keys);
    forall k | k in promoted.blobs && k !in after.blobs
      ensures Dead(promoted, k)
    {
      OutboxIsDead(promoted, k);
    }
    DeadKeyChanges(promoted, after);
    forall id
      ensures IsPending(after, id) <==> Stuck(s, id)
      ensures Stuck(after, id) <==> Stuck(s, id)
    {
      if id in s.images {
        if id in ids {
          PassPromotesIndependently(s, ids, FaultFree, id);
        } else {
          PassOther(s, ids, FaultFree, id);
        }
        if IsPending(promoted, id) {
          var k := promoted.images[id].owned;
          assert RowSound(promoted, promoted.images[id]) && Names(promoted.images[id], k);
          assert k in after.blobs <==> k in promoted.blobs;
        }
      }
    }
  }

  /** Storage when nothing is pending or awaiting deletion. */
  lemma CleanStorage(s: Store, k: Key)
    requires Inv(s) && s.outbox == map[] && forall id :: !IsPending(s, id)
    ensures k in s.blobs && k !in s.lost <==>
              (IsLegacy(s, k) && k in s.blobs) || (exists id :: id in s.images && s.images[id].name == k)
  {
    if k in s.blobs && k !in s.lost && !IsLegacy(s, k) {
      assert IsLive(s, k);
      var id :| id in s.images && Names(s.images[id], k);
      assert RowSound(s, s.images[id]) && !IsPending(s, id);
    }
    if id :| id in s.images && s.images[id].name == k {
      assert RowSound(s, s.images[id]) && !IsPending(s, id);
      assert Names(s.images[id], k);
    }
  }

  /** What is then stored: the legacy images, exactly one file for each row, and nothing else but
      files that only the log names; without log entries storage is exactly legacy plus live. */
  lemma RepairedStorage(s: Store, ids: seq<nat>, keys: seq<Key>)
    requires Inv(s) && ListsPending(s, ids) && ListsOutbox(s, keys)
    requires forall id :: !Stuck(s, id)
    ensures var after := Repair(s, ids, keys);
            && (forall id :: !IsPending(after, id))
            && (forall id :: id in after.images ==> Holds(after, after.images[id].name, after.images[id].digest))
            && (forall k :: k in after.blobs && k !in after.lost <==>
                  (IsLegacy(after, k) && k in after.blobs) || (exists id :: id in after.images && after.images[id].name == k))
  {
    RepairConverges(s, ids, keys);
    AllPromoted(Repair(s, ids, keys));
  }

  lemma AllPromoted(s: Store)
    requires Inv(s) && s.outbox == map[] && forall id :: !IsPending(s, id)
    ensures forall id :: id in s.images ==> Holds(s, s.images[id].name, s.images[id].digest)
    ensures forall k :: k in s.blobs && k !in s.lost <==>
              (IsLegacy(s, k) && k in s.blobs) || (exists id :: id in s.images && s.images[id].name == k)
  {
    forall id | id in s.images
      ensures Holds(s, s.images[id].name, s.images[id].digest)
    {
      assert RowSound(s, s.images[id]) && !IsPending(s, id);
    }
    forall k: Key
      ensures k in s.blobs && k !in s.lost <==>
                (IsLegacy(s, k) && k in s.blobs) || (exists id :: id in s.images && s.images[id].name == k)
    {
      CleanStorage(s, k);
    }
  }

  lemma {:induction false} StuckPassDoesNothing(s: Store, ids: seq<nat>)
    requires Inv(s) && forall id :: IsPending(s, id) ==> Stuck(s, id)
    ensures PromoteAll(s, ids, FaultFree) == s
  {
    if ids != [] {
      var n := |ids| - 1;
      StuckPassDoesNothing(s, ids[..n]);
      if IsPending(s, ids[n]) {
        FaultFreePromote(s, ids[n]);
      }
    }
  }

  /** A second repair changes nothing, whatever order it takes. */
  lemma RepairIsIdempotent(s: Store, ids: seq<nat>, keys: seq<Key>, ids': seq<nat>, keys': seq<Key>)
    requires Inv(s) && ListsPending(s, ids) && ListsOutbox(s, keys)
    requires ListsOutbox(Repair(s, ids, keys), keys')
    ensures Repair(Repair(s, ids, keys), ids', keys') == Repair(s, ids, keys)
  {
    RepairConverges(s, ids, keys);
    var after := Repair(s, ids, keys);
    StuckPassDoesNothing(after, ids');
    FaultFreeSweepAll(after, keys');
    var again := SweepAll(after, keys', FaultFreeSweep);
    assert again.blobs == after.blobs && again.outbox == after.outbox;
  }

  // ---------- When nothing is ever stuck ----------

  /** Saving an owned key either stores all of the bytes given or nothing under that name. */
  predicate WholeWrites(e: Event) {
    e.Promoting? ==> e.promoteFaults.save.Saved? || e.promoteFaults.save.Renamed? || e.promoteFaults.save == SaveRaised(None)
  }

  lemma PromoteNeverSticksItself(s: Store, id: nat, f: PromoteFaults)
    requires IsPending(s, id) && RowSound(s, s.images[id]) && !Stuck(s, id) && s.images[id].owned < s.nextKey
    requires f.save.Saved? || f.save.Renamed? || f.save == SaveRaised(None)
    ensures !Stuck(Promote(s, id, f).0, id)
  {
  }

  lemma PromotingNeverSticks(s: Store, p: nat, f: PromoteFaults, id: nat)
    requires Inv(s) && !Stuck(s, id)
    requires f.save.Saved? || f.save.Renamed? || f.save == SaveRaised(None)
    ensures !Stuck(Promote(s, p, f).0, id)
  {
    PromoteRows(s, p, f);
    if id in s.images {
      if id != p {
        PromoteOther(s, p, f, id);
      } else if IsPending(s, id) {
        assert RowSound(s, s.images[id]);
        PromoteNeverSticksItself(s, id, f);
      }
    }
  }

  /** If owned keys are written whole, no run ever makes a row stuck; then every repair ends clean. */
  lemma WholeWritesNeverStick(s: Store, e: Event, id: nat)
    requires Inv(s) && Enabled(s, e) && WholeWrites(e) && !Stuck(s, id)
    ensures !Stuck(Step(s, e), id)
  {
    if e.Replacing? {
      if IsPending(Step(s, e), id) {
        ReplaceNeverSticks(s, e.product, e.uploads, e.replaceFaults, id);
      }
    } else if e.Promoting? {
      PromotingNeverSticks(s, e.id, e.promoteFaults, id);
    }
  }

  lemma NewOwnedKeyIsFree(s: Store, product: nat, st: Staging, i: nat)
    requires KeysDrawn(s) && FilesSound(s, st) && RowsSound(s, product, st) && !st.failed && i < |st.rows|
    ensures st.rows[i].owned !in st.blobs
  {
    var owned := st.rows[i].owned;
    assert NewRow(s, product, st, st.rows[i]);
    assert owned in st.blobs ==> Filed(st.files, owned);
  }

  lemma CommitNeverSticks(s: Store, product: nat, st: Staging, id: nat)
    requires Inv(s) && FilesSound(s, st) && RowsSound(s, product, st) && !st.failed
    requires IsPending(Committed(s, product, st), id) && !Stuck(s, id)
    ensures !Stuck(Committed(s, product, st), id)
  {
    CommittedNames(s, product, st, id);
    if id < s.nextImage {
      OldBlobs(s, st, s.images[id].owned);
    } else {
      CommittedRow(s, product, st, id);
      NewOwnedKeyIsFree(s, product, st, id - s.nextImage);
    }
  }

  lemma ReplaceNeverSticks(s: Store, product: nat, uploads: seq<Upload>, f: ReplaceFaults, id: nat)
    requires Inv(s) && IsPending(Replace(s, product, uploads, f), id) && !Stuck(s, id)
    ensures !Stuck(Replace(s, product, uploads, f), id)
  {
    ReplaceRows(s, product, uploads, f);
    if Replace(s, product, uploads, f).images == s.images {
      ReplaceBlob(s, product, uploads, f, s.images[id].owned);
    } else {
      CommitNeverSticks(s, product, Staged(s, product, uploads), id);
    }
  }

  /** Without whole writes a single partial write is enough to keep a row pending for good. */
  lemma PartialWriteSticks(s: Store, id: nat, partial: Bytes)
    requires Inv(s) && IsPending(s, id)
    requires s.images[id].name in s.blobs && s.images[id].owned !in s.blobs && Sha256(partial) != s.images[id].digest
    ensures Stuck(Promote(s, id, NO_FAULTS.(save := SaveRaised(Some(partial)))).0, id)
  {
    var image := s.images[id];
    assert RowSound(s, image);
    assert CopyToOwned(s, image, NO_FAULTS.(save := SaveRaised(Some(partial)))) == (s.(blobs := s.blobs[image.owned := partial]), false);
  }

  /** Nothing but a committed replacement of its own gallery frees a stuck row. */
  lemma StuckStays(s: Store, e: Event, id: nat)
    requires Inv(s) && Enabled(s, e) && Stuck(s, id)
    ensures Stuck(Step(s, e), id) || (id !in Step(s, e).images && e.Replacing? && e.product == s.images[id].product)
  {
    assert RowSound(s, s.images[id]) && Names(s.images[id], s.images[id].owned);
    CommittedImageLasts(s, e, id);
    match e
    case Replacing(product, uploads, f) =>
      ReplacementKeepsImage(s, product, uploads, f, id);
      ReplaceBlob(s, product, uploads, f, s.images[id].owned);
    case Promoting(p, f) =>
      if p != id {
        PromoteOther(s, p, f, id);
      }
    case _ =>
  }

  /** A row that a replacement removed never comes back. */
  lemma RemovedStaysRemoved(s: Store, e: Event, id: nat)
    requires Inv(s) && id < s.nextImage && id !in s.images
    ensures id !in Step(s, e).images
  {
    match e
    case Replacing(product, uploads, f) =>
      ReplaceRows(s, product, uploads, f);
      if Step(s, e).images != s.images {
        CommittedRow(s, product, Staged(s, product, uploads), id);
      }
    case Promoting(p, f) => PromoteRows(s, p, f);
    case _ =>
  }

  /** Row keys are never reused. */
  lemma NextImageGrows(s: Store, e: Event)
    ensures s.nextImage <= Step(s, e).nextImage
  {
  }

  /** Recording leftovers works whenever it is tried. */
  predicate Records(e: Event) {
    match e
    case Replacing(_, _, f) => !f.persistRaises
    case Promoting(_, f) => !f.persistRaises
    case _ => true
  }

  lemma LostUnchanged(s: Store, e: Event)
    requires Records(e)
    ensures Step(s, e).lost == s.lost
  {
  }
}
