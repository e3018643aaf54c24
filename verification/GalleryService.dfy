/** The gallery services in the form the code has: loops that stage, promote and delete one image
    after another, with the exception paths of the two views around them. */
module GalleryService {
  import opened Base
  import opened Gallery
  import GalleryOutcomes

  class Service {
    var legacy: map<nat, Key>
    var images: map<nat, Image>
    var nextImage: nat
    var nextKey: Key
    var blobs: map<Key, Bytes>
    var outbox: map<Key, nat>
    var lost: set<Key>

    ghost function View(): Store
      reads this
    {
      Store(legacy, images, nextImage, nextKey, blobs, outbox, lost)
    }

    constructor (initial: Store)
      ensures View() == initial
    {
      legacy, images, nextImage, nextKey := initial.legacy, initial.images, initial.nextImage, initial.nextKey;
      blobs, outbox, lost := initial.blobs, initial.outbox, initial.lost;
    }

    method StorageDelete(k: Key, d: Deletion) returns (ok: bool)
      modifies this`blobs
      ensures blobs == Delete(old(blobs), k, d) && ok == d.Gone?
    {
      if !d.Kept? {
        blobs := blobs - {k};
      }
      ok := d.Gone?;
    }

    /** Try to delete every staged file; name the ones whose deletion raised. */
    method Cleanup(files: seq<(Key, Deletion)>) returns (failed: set<Key>)
      modifies this`blobs
      ensures blobs == CleanedBlobs(old(blobs), files) && failed == FailedKeys(files)
    {
      failed := {};
      assert FailedKeys(files[..0]) == {};
      for i := 0 to |files|
        invariant blobs == CleanedBlobs(old(blobs), files[..i]) && failed == FailedKeys(files[..i])
      {
        assert files[..i + 1] == files[..i] + [files[i]];
        FailedKeysAppend(files[..i], files[i]);
        var ok := StorageDelete(files[i].0, files[i].1);
        if !ok {
          failed := failed + {files[i].0};
        }
      }
      assert files[..|files|] == files;
    }

    method PersistDeletionIntents(keys: set<Key>)
      modifies this`outbox
      ensures outbox == Enqueue(old(outbox), keys)
      ensures forall k :: k in outbox <==> k in old(outbox) || (k in keys && k != 0)
      ensures forall k :: k in old(outbox) ==> outbox[k] == old(outbox)[k]
    {
      outbox := (map k | k in keys && k != 0 :: 0) + outbox;
    }

    /** Recording leftovers never raises: a failure is only logged. */
    method PersistExceptionCleanupFailures(keys: set<Key>, persistRaises: bool)
      modifies this`outbox, this`lost
      ensures View() == RecordLeftovers(old(View()), keys, persistRaises)
    {
      if persistRaises {
        lost := lost + (keys - {0});
      } else {
        PersistDeletionIntents(keys);
      }
    }

    /** One image: saved under a fresh temporary key, noted for cleanup, and given its row. */
    method StageImage(product: nat, protected: set<Key>, upload: Upload, before: seq<(Key, Deletion)>, ready: seq<Image>)
      returns (raised: bool, files: seq<(Key, Deletion)>, rows: seq<Image>)
      modifies this`blobs, this`nextKey
      ensures Staging(blobs, nextKey, files, rows, raised) ==
              StageOne(Staging(old(blobs), old(nextKey), before, ready, false), protected, product, upload)
    {
      raised, files, rows := false, before, ready;
      var (temp, owned) := (nextKey, nextKey + 1);
      nextKey := nextKey + 2;
      if temp in protected || owned in protected {
        raised := true;
        return;
      }
      match upload.save
      case TempRaised =>
        raised := true;
      case TempRenamed =>
        var stray := nextKey;
        nextKey := nextKey + 1;
        blobs := blobs[stray := upload.content];
        files := files + [(stray, upload.cleanup)];
        raised := true;
      case TempSaved =>
        blobs := blobs[temp := upload.content];
        files := files + [(temp, upload.cleanup)];
        rows := rows + [Image(product, temp, owned, Sha256(upload.content), Pending)];
    }

    /** The loop over the new images, until one raises. */
    method StageImages(product: nat, names: set<Key>, uploads: seq<Upload>)
      returns (raised: bool, files: seq<(Key, Deletion)>, rows: seq<Image>)
      modifies this`blobs, this`nextKey
      ensures Staging(blobs, nextKey, files, rows, raised) == Stage(Staging(old(blobs), old(nextKey), [], [], false), names, product, uploads)
    {
      var protected: set<Key> := names;
      ghost var final := Stage(Staging(blobs, nextKey, [], [], false), names, product, uploads);
      raised, files, rows := false, [], [];
      var i := 0;
      while i < |uploads| && !raised
        invariant 0 <= i <= |uploads|
        invariant final == Stage(Staging(blobs, nextKey, files, rows, raised), protected, product, uploads[i..])
      {
        assert uploads[i..][0] == uploads[i] && uploads[i..][1..] == uploads[i + 1..];
        var drawn := {nextKey, nextKey + 1};
        raised, files, rows := StageImage(product, protected, uploads[i], files, rows);
        protected := protected + drawn;
        i := i + 1;
      }
    }

    /** The row writes: deletion intents for what is given up, then the old rows out and the new ones in. */
    method SwapRows(product: nat, superseded: set<Key>, rows: seq<Image>)
      modifies this`images, this`nextImage, this`outbox
      ensures View() == WithNewImages(old(View()).(outbox := Enqueue(old(outbox), superseded)), product, rows)
    {
      PersistDeletionIntents(superseded);
      images := map id | id in images && images[id].product != product :: images[id];
      images := Insert(images, nextImage, rows);
      nextImage := nextImage + |rows|;
    }

    /** Stage a replacement inside the caller's transaction. When it raises, the staged files have
        been cleaned up and leftovers names the ones that stayed; rows are then the caller's to roll back. */
    method ReplaceProductImages(product: nat, uploads: seq<Upload>, f: ReplaceFaults)
      returns (raised: bool, files: seq<(Key, Deletion)>, leftovers: set<Key>)
      modifies this`blobs, this`nextKey, this`images, this`nextImage, this`outbox
      ensures var st := Stage(InitialStaging(old(View())), ProtectedNames(old(View()), product), product, uploads);
              if |uploads| > 4 || f.lockRaises then raised && leftovers == {} && View() == old(View())
              else if st.failed || f.rowsRaise then
                && raised && leftovers == FailedKeys(st.files)
                && blobs == CleanedBlobs(st.blobs, st.files) && nextKey == st.nextKey
              else !raised && files == st.files && View() == Committed(old(View()), product, st)
    {
      if |uploads| > 4 || f.lockRaises {
        return true, [], {};
      }
      var snapshot := Store(legacy, images, nextImage, nextKey, blobs, outbox, lost);
      var rows;
      raised, files, rows := StageImages(product, ProtectedNames(snapshot, product), uploads);
      leftovers := {};
      if raised || f.rowsRaise {
        raised := true;
        leftovers := Cleanup(files);
        return;
      }
      SwapRows(product, Superseded(snapshot, product), rows);
    }

    /** The view around it: one transaction, then the cleanup of whatever was rolled back. */
    method SubmitGallery(product: nat, uploads: seq<Upload>, f: ReplaceFaults) returns (ok: bool)
      modifies this
      ensures View() == Replace(old(View()), product, uploads, f)
      ensures ok <==> GalleryOutcomes.Commits(old(View()), product, uploads, f)
      ensures !ok ==> images == old(images) && nextImage == old(nextImage)
      ensures ok ==> lost == old(lost)
    {
      var (savedImages, savedNext, savedOutbox) := (images, nextImage, outbox);
      var raised, files, leftovers := ReplaceProductImages(product, uploads, f);
      if raised || f.viewRaises {
        images, nextImage, outbox := savedImages, savedNext, savedOutbox;
        if !raised {
          leftovers := Cleanup(files);
        }
        PersistExceptionCleanupFailures(leftovers, f.persistRaises);
        NoLeftovers(old(View()), f.persistRaises);
        return false;
      }
      ok := true;
    }

    /** Make sure that the owned key holds the row's bytes, without overwriting an occupied one. */
    method CopyToOwnedKey(image: Image, f: PromoteFaults) returns (verified: bool)
      modifies this
      ensures (View(), verified) == CopyToOwned(old(View()), image, f)
    {
      if f.existsRaises {
        return false;
      }
      if image.owned in blobs {
        return !f.readRaises && Sha256(blobs[image.owned]) == image.digest;
      }
      if f.openRaises || image.name !in blobs {
        return false;
      }
      match f.save {
        case SaveRaised(partial) =>
          if partial.Some? {
            blobs := blobs[image.owned := partial.value];
          }
          return false;
        case Renamed =>
          var stray := nextKey;
          nextKey := nextKey + 1;
          blobs := blobs[stray := blobs[image.name]];
          var ok := StorageDelete(stray, f.strayCleanup);
          var leftovers: set<Key> := if ok then {} else {stray};
          PersistExceptionCleanupFailures(leftovers, f.persistRaises);
          return false;
        case Saved =>
          blobs := blobs[image.owned := blobs[image.name]];
        case Corrupted(bytes) =>
          blobs := blobs[image.owned := bytes];
      }
      verified := !f.rereadRaises && Sha256(blobs[image.owned]) == image.digest;
    }

    /** One iteration of the promotion pass, in its own transaction. */
    method PromoteOne(id: nat, f: PromoteFaults) returns (result: Promoting)
      modifies this
      ensures (View(), result) == Promote(old(View()), id, f)
      ensures !result.Error? ==> IsPromoted(images, id)
      ensures forall other :: IsPromoted(old(images), other) ==> IsPromoted(images, other)
    {
      if f.getRaises || id !in images {
        return Error;
      }
      var image := images[id];
      if image.state.Promoted? {
        return Skipped;
      }
      var verified := CopyToOwnedKey(image, f);
      if !verified {
        return Error;
      }
      var ok := StorageDelete(image.name, f.tempDelete);
      if !ok || f.commitRaises {
        return Error;
      }
      images := images[id := image.(name := image.owned, state := Promoted)];
      result := Done;
    }

    /** ids are the rows that the pending query lists; a failure never ends the pass. The pass raises in the
        end exactly when some row failed, and otherwise every listed row is promoted. */
    method PromoteProductImages(ids: seq<nat>, faults: nat -> PromoteFaults) returns (failures: nat)
      modifies this
      ensures View() == PromoteAll(old(View()), ids, faults)
      ensures failures == 0 <==> forall i :: 0 <= i < |ids| ==> PromotesAt(old(View()), ids, faults, i)
      ensures failures == 0 ==> forall id :: id in ids ==> IsPromoted(images, id)
    {
      failures := 0;
      for i := 0 to |ids|
        invariant View() == PromoteAll(old(View()), ids[..i], faults)
        invariant failures == 0 <==> forall k :: 0 <= k < i ==> PromotesAt(old(View()), ids, faults, k)
        invariant failures == 0 ==> forall id :: id in ids[..i] ==> IsPromoted(images, id)
      {
        assert ids[..i + 1][..i] == ids[..i];
        assert ids[..i + 1] == ids[..i] + [ids[i]];
        var result := PromoteOne(ids[i], faults(ids[i]));
        assert PromotesAt(old(View()), ids, faults, i) <==> !result.Error?;
        if result.Error? {
          failures := failures + 1;
        }
      }
      assert ids[..|ids|] == ids;
    }

    /** One iteration of the deletion pass. */
    method DeleteOne(k: Key, f: SweepFaults) returns (ok: bool)
      modifies this`blobs, this`outbox
      ensures View() == Sweep(old(View()), k, f)
      ensures ok <==> Sweeps(old(View()), k, f)
      ensures ok ==> k !in outbox && k !in blobs
      ensures outbox.Keys <= old(outbox).Keys && blobs.Keys <= old(blobs).Keys
    {
      if k !in outbox || f.attemptRaises {
        return false;
      }
      outbox := outbox[k := outbox[k] + 1];
      ok := StorageDelete(k, f.delete);
      if !ok || f.forgetRaises {
        return false;
      }
      outbox := outbox - {k};
    }

    /** keys are the intents that the outbox query lists; a failure never ends the pass. The pass raises in
        the end exactly when some deletion failed, and otherwise every listed key is gone. */
    method RepairProductImageDeletions(keys: seq<Key>, faults: Key -> SweepFaults) returns (failures: nat)
      modifies this`blobs, this`outbox
      ensures View() == SweepAll(old(View()), keys, faults)
      ensures failures == 0 <==> forall i :: 0 <= i < |keys| ==> SweepsAt(old(View()), keys, faults, i)
      ensures failures == 0 ==> forall k :: k in keys ==> k !in outbox && k !in blobs
    {
      failures := 0;
      for i := 0 to |keys|
        invariant View() == SweepAll(old(View()), keys[..i], faults)
        invariant failures == 0 <==> forall j :: 0 <= j < i ==> SweepsAt(old(View()), keys, faults, j)
        invariant failures == 0 ==> forall k :: k in keys[..i] ==> k !in outbox && k !in blobs
      {
        assert keys[..i + 1][..i] == keys[..i];
        assert keys[..i + 1] == keys[..i] + [keys[i]];
        var ok := DeleteOne(keys[i], faults(keys[i]));
        assert SweepsAt(old(View()), keys, faults, i) <==> ok;
        if !ok {
          failures := failures + 1;
        }
      }
      assert keys[..|keys|] == keys;
    }
  }

  predicate IsPromoted(images: map<nat, Image>, id: nat) {
    id in images && images[id].state.Promoted?
  }

  /** The i-th row of the pass is promoted, or was already. */
  predicate PromotesAt(s: Store, ids: seq<nat>, faults: nat -> PromoteFaults, i: nat)
    requires i < |ids|
  {
    !Promote(PromoteAll(s, ids[..i], faults), ids[i], faults(ids[i])).1.Error?
  }

  /** The intent is still there and none of its three steps raises. */
  predicate Sweeps(s: Store, k: Key, f: SweepFaults) {
    k in s.outbox && !f.attemptRaises && f.delete.Gone? && !f.forgetRaises
  }

  predicate SweepsAt(s: Store, keys: seq<Key>, faults: Key -> SweepFaults, i: nat)
    requires i < |keys|
  {
    Sweeps(SweepAll(s, keys[..i], faults), keys[i], faults(keys[i]))
  }

  lemma FailedKeysAppend(files: seq<(Key, Deletion)>, f: (Key, Deletion))
    ensures FailedKeys(files + [f]) == FailedKeys(files) + (if f.1.Gone? then {} else {f.0})
  {
    var all := files + [f];
    forall k
      ensures k in FailedKeys(all) <==> k in FailedKeys(files) + (if f.1.Gone? then {} else {f.0})
    {
      if k in FailedKeys(files) {
        var i :| 0 <= i < |files| && !files[i].1.Gone? && files[i].0 == k;
        assert !all[i].1.Gone? && all[i].0 == k;
      }
      if !f.1.Gone? && k == f.0 {
        assert !all[|files|].1.Gone? && all[|files|].0 == k;
      }
    }
  }

  lemma NoLeftovers(s: Store, persistRaises: bool)
    ensures RecordLeftovers(s, {}, persistRaises) == s
  {
    assert Enqueue(s.outbox, {}) == s.outbox;
  }
}
