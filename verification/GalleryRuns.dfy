/** Whole runs of the gallery: replacements, promotions and any number of deletion workers, each of which
    takes its keys from the outbox and may be arbitrarily late (src/apps/catalog/services.py:183-395). */
module GalleryRuns {
  import opened Base
  import opened Gallery
  import opened GalleryInvariant
  import opened GalleryRepair

  /** A deletion worker between its steps: it holds a key it took while that was in the outbox, or one
      whose delete call returned. */
  datatype Worker = Idle | Holding(key: Key) | Erased(key: Key)

  datatype System = System(store: Store, workers: seq<Worker>)

  /** Take records the attempt, Erase calls the storage, Drop deletes the intent, Abandon is an exception
      in between. */
  datatype Move =
    | Replaces(product: nat, uploads: seq<Upload>, replaceFaults: ReplaceFaults)
    | Promotes(id: nat, promoteFaults: PromoteFaults)
    | Take(worker: nat, key: Key)
    | Erase(worker: nat, deletion: Deletion)
    | Drop(worker: nat)
    | Abandon(worker: nat)

  predicate Possible(s: System, m: Move) {
    match m
    case Take(w, k) => w < |s.workers| && s.workers[w].Idle? && k in s.store.outbox
    case Erase(w, _) => w < |s.workers| && s.workers[w].Holding?
    case Drop(w) => w < |s.workers| && s.workers[w].Erased?
    case Abandon(w) => w < |s.workers|
    case _ => true
  }

  /** What a move does to the store. */
  function EventOf(s: System, m: Move): Option<Event>
    requires Possible(s, m)
  {
    match m
    case Replaces(product, uploads, f) => Some(Replacing(product, uploads, f))
    case Promotes(id, f) => Some(Promoting(id, f))
    case Take(_, k) => Some(Attempting(k))
    case Erase(w, d) => Some(Deleting(s.workers[w].key, d))
    case Drop(w) => Some(Forgetting(s.workers[w].key))
    case Abandon(_) => None
  }

  function WorkersAfter(s: System, m: Move): seq<Worker>
    requires Possible(s, m)
  {
    match m
    case Take(w, k) => s.workers[w := Holding(k)]
    case Erase(w, d) => s.workers[w := if d.Gone? then Erased(s.workers[w].key) else Idle]
    case Drop(w) => s.workers[w := Idle]
    case Abandon(w) => s.workers[w := Idle]
    case _ => s.workers
  }

  function Advance(s: System, m: Move): System
    requires Possible(s, m)
  {
    System(match EventOf(s, m) case None => s.store case Some(e) => Step(s.store, e), WorkersAfter(s, m))
  }

  ghost predicate PossibleRun(s: System, run: seq<Move>)
    decreases |run|
  {
    run == [] || (Possible(s, run[0]) && PossibleRun(Advance(s, run[0]), run[1..]))
  }

  function Run(s: System, run: seq<Move>): System
    requires PossibleRun(s, run)
    decreases |run|
  {
    if run == [] then s else Run(Advance(s, run[0]), run[1..])
  }

  // ---------- Where runs begin ----------

  predicate Settled(s: Store, image: Image) {
    && image.state.Promoted? && image.name != 0 && (image.owned == 0 || image.owned == image.name)
    && Holds(s, image.name, image.digest) && !IsLegacy(s, image.name)
  }

  ghost predicate SettledRows(s: Store) {
    && (forall id :: id in s.images ==> Settled(s, s.images[id]))
    && (forall a, b :: a in s.images && b in s.images && s.images[a].name == s.images[b].name ==> a == b)
  }

  ghost predicate NothingElse(s: Store) {
    forall k :: k in s.blobs ==> IsLegacy(s, k) || exists id :: id in s.images && s.images[id].name == k
  }

  /** The first deployment: legacy images, migrated rows that are promoted already, an empty outbox, and
      nothing else in storage. */
  ghost predicate FirstStore(s: Store) {
    KeysDrawn(s) && s.outbox == map[] && s.lost == {} && SettledRows(s) && NothingElse(s)
  }

  ghost predicate Initial(s: System) {
    FirstStore(s.store) && forall w :: 0 <= w < |s.workers| ==> s.workers[w].Idle?
  }

  /** A settled row stands for its one name only. */
  lemma SettledNames(s: Store, image: Image, k: Key)
    requires Settled(s, image) && Names(image, k)
    ensures k == image.name && !IsLegacy(s, k)
  {
  }

  lemma FirstStoreDisjoint(s: Store)
    requires SettledRows(s) && s.outbox == map[] && s.lost == {}
    ensures Disjoint(s)
  {
    forall id, k | id in s.images && Names(s.images[id], k) ensures k == s.images[id].name && !IsLegacy(s, k) {
      SettledNames(s, s.images[id], k);
    }
  }

  lemma FirstStoreAccounted(s: Store)
    requires SettledRows(s) && NothingElse(s)
    ensures Accounted(s)
  {
    forall k | k in s.blobs && !IsLegacy(s, k) ensures IsLive(s, k) {
      var id :| id in s.images && s.images[id].name == k;
      assert Settled(s, s.images[id]);
      assert Names(s.images[id], k);
    }
  }

  lemma SettledIsSound(s: Store, image: Image)
    requires Settled(s, image)
    ensures RowSound(s, image)
  {
  }

  lemma FirstStoreIsSound(s: Store)
    requires FirstStore(s)
    ensures Inv(s)
  {
    FirstStoreDisjoint(s);
    FirstStoreAccounted(s);
    forall id | id in s.images ensures RowSound(s, s.images[id]) {
      SettledIsSound(s, s.images[id]);
    }
  }

  // ---------- Every run ----------

  /** Whatever a worker holds is dead, and gone once its delete returned. */
  ghost predicate HeldIsDead(s: Store, w: Worker) {
    match w
    case Idle => true
    case Holding(k) => Dead(s, k)
    case Erased(k) => Dead(s, k) && k !in s.blobs
  }

  ghost predicate SystemInv(s: System) {
    Inv(s.store) && forall w :: 0 <= w < |s.workers| ==> HeldIsDead(s.store, s.workers[w])
  }

  /** Deletion only ever meets dead keys: workers take them from the outbox, and dead keys stay dead. */
  lemma MoveIsEnabled(s: System, m: Move)
    requires SystemInv(s) && Possible(s, m)
    ensures EventOf(s, m).Some? ==> Enabled(s.store, EventOf(s, m).value)
  {
    if m.Erase? || m.Drop? {
      assert HeldIsDead(s.store, s.workers[m.worker]);
    }
  }

  lemma HeldStaysDead(s: Store, e: Event, w: Worker)
    requires Inv(s) && Enabled(s, e) && HeldIsDead(s, w)
    ensures HeldIsDead(Step(s, e), w)
  {
    if !w.Idle? {
      DeadForever(s, e, w.key);
    }
  }

  lemma MovedWorker(s: System, m: Move)
    requires SystemInv(s) && Possible(s, m) && (m.Take? || m.Erase? || m.Drop? || m.Abandon?)
    ensures HeldIsDead(Advance(s, m).store, Advance(s, m).workers[m.worker])
  {
    MoveIsEnabled(s, m);
    assert HeldIsDead(s.store, s.workers[m.worker]);
    if m.Take? {
      OutboxIsDead(s.store, m.key);
      DeadForever(s.store, Attempting(m.key), m.key);
    } else if m.Erase? {
      DeadForever(s.store, EventOf(s, m).value, s.workers[m.worker].key);
    }
  }

  lemma MoveKeepsInv(s: System, m: Move)
    requires SystemInv(s) && Possible(s, m)
    ensures SystemInv(Advance(s, m))
  {
    var after := Advance(s, m);
    MoveIsEnabled(s, m);
    if EventOf(s, m).Some? {
      StepKeepsInv(s.store, EventOf(s, m).value);
    }
    forall w | 0 <= w < |after.workers| ensures HeldIsDead(after.store, after.workers[w]) {
      if (m.Take? || m.Erase? || m.Drop? || m.Abandon?) && w == m.worker {
        MovedWorker(s, m);
      } else if EventOf(s, m).Some? {
        HeldStaysDead(s.store, EventOf(s, m).value, s.workers[w]);
      }
    }
  }

  lemma {:induction false} RunKeepsInv(s: System, run: seq<Move>)
    requires SystemInv(s) && PossibleRun(s, run)
    ensures SystemInv(Run(s, run))
    decreases |run|
  {
    if run != [] {
      MoveKeepsInv(s, run[0]);
      RunKeepsInv(Advance(s, run[0]), run[1..]);
    }
  }

  /** In every run from the first deployment, with any failure at any call and any number of workers:
      promoted rows have their bytes, pending rows have them at one of their two keys, no live or legacy
      key is in the outbox or in a worker's hands, and every stored key is accounted for. */
  lemma EveryRunKeepsImages(s: System, run: seq<Move>, id: nat, k: Key, w: nat)
    requires Initial(s) && PossibleRun(s, run)
    ensures var after := Run(s, run); var store := after.store;
            && (id in store.images ==>
                  var image := store.images[id];
                  if image.state.Promoted? then Holds(store, image.name, image.digest)
                  else Holds(store, image.name, image.digest) || Holds(store, image.owned, image.digest))
            && (IsLive(store, k) || IsLegacy(store, k) ==> k !in store.outbox)
            && (w < |after.workers| && !after.workers[w].Idle? ==> !IsLive(store, after.workers[w].key) && !IsLegacy(store, after.workers[w].key))
            && (k in store.blobs ==> IsLegacy(store, k) || IsLive(store, k) || k in store.outbox || k in store.lost)
  {
    FirstStoreIsSound(s.store);
    RunKeepsInv(s, run);
    var after := Run(s, run);
    assert id in after.store.images ==> RowSound(after.store, after.store.images[id]);
    assert w < |after.workers| ==> HeldIsDead(after.store, after.workers[w]);
  }

  // ---------- Frames over runs ----------

  lemma {:induction false} LegacyBytesLast(s: System, run: seq<Move>, k: Key)
    requires SystemInv(s) && PossibleRun(s, run) && IsLegacy(s.store, k)
    ensures var after := Run(s, run).store;
            after.legacy == s.store.legacy && (k in after.blobs <==> k in s.store.blobs) && (k in s.store.blobs ==> after.blobs[k] == s.store.blobs[k])
    decreases |run|
  {
    if run != [] {
      MoveIsEnabled(s, run[0]);
      if EventOf(s, run[0]).Some? {
        LegacyBytesUntouched(s.store, EventOf(s, run[0]).value, k);
      }
      MoveKeepsInv(s, run[0]);
      LegacyBytesLast(Advance(s, run[0]), run[1..], k);
    }
  }

  /** Legacy names are frozen. */
  lemma {:induction false} LegacyLasts(s: System, run: seq<Move>)
    requires PossibleRun(s, run)
    ensures Run(s, run).store.legacy == s.store.legacy
    decreases |run|
  {
    if run != [] {
      LegacyLasts(Advance(s, run[0]), run[1..]);
    }
  }

  /** A superseded key stays dead over every run, and once its bytes are gone they stay gone. */
  lemma {:induction false} DeadOverRun(s: System, run: seq<Move>, k: Key)
    requires SystemInv(s) && PossibleRun(s, run) && Dead(s.store, k)
    ensures Dead(Run(s, run).store, k) && (k !in s.store.blobs ==> k !in Run(s, run).store.blobs)
    decreases |run|
  {
    if run != [] {
      MoveIsEnabled(s, run[0]);
      if EventOf(s, run[0]).Some? {
        DeadForever(s.store, EventOf(s, run[0]).value, k);
      }
      MoveKeepsInv(s, run[0]);
      DeadOverRun(Advance(s, run[0]), run[1..], k);
    }
  }

  ghost predicate Removed(s: Store, id: nat) {
    id < s.nextImage && id !in s.images
  }

  lemma MoveKeepsRemoved(s: System, m: Move, id: nat)
    requires SystemInv(s) && Possible(s, m) && Removed(s.store, id)
    ensures Removed(Advance(s, m).store, id)
  {
    if EventOf(s, m).Some? {
      RemovedStaysRemoved(s.store, EventOf(s, m).value, id);
      NextImageGrows(s.store, EventOf(s, m).value);
    }
  }

  /** A stuck row stays stuck over every run, until its own gallery is replaced and the row is gone for good. */
  lemma {:induction false} StuckUntilReplaced(s: System, run: seq<Move>, id: nat)
    requires SystemInv(s) && PossibleRun(s, run) && (Stuck(s.store, id) || Removed(s.store, id))
    ensures Stuck(Run(s, run).store, id) || Removed(Run(s, run).store, id)
    decreases |run|
  {
    if run != [] {
      MoveIsEnabled(s, run[0]);
      if Removed(s.store, id) {
        MoveKeepsRemoved(s, run[0], id);
      } else if EventOf(s, run[0]).Some? {
        StuckStays(s.store, EventOf(s, run[0]).value, id);
        NextImageGrows(s.store, EventOf(s, run[0]).value);
      }
      MoveKeepsInv(s, run[0]);
      StuckUntilReplaced(Advance(s, run[0]), run[1..], id);
    }
  }

  /** One partial write of an owned key keeps its row from ever being promoted, in any run. */
  lemma PartialWriteSticksForGood(s: System, run: seq<Move>, id: nat, partial: Bytes)
    requires SystemInv(s) && IsPending(s.store, id)
    requires s.store.images[id].name in s.store.blobs && s.store.images[id].owned !in s.store.blobs
    requires Sha256(partial) != s.store.images[id].digest
    requires PossibleRun(Advance(s, Promotes(id, NO_FAULTS.(save := SaveRaised(Some(partial))))), run)
    ensures var after := Run(Advance(s, Promotes(id, NO_FAULTS.(save := SaveRaised(Some(partial))))), run).store;
            id !in after.images || IsPending(after, id)
  {
    var m := Promotes(id, NO_FAULTS.(save := SaveRaised(Some(partial))));
    PartialWriteSticks(s.store, id, partial);
    MoveKeepsInv(s, m);
    StuckUntilReplaced(Advance(s, m), run, id);
  }

  // ---------- The deletion pass ----------

  /** One iteration of the pass, with any faults, is the steps of one worker. */
  lemma SweepKeepsInv(s: Store, k: Key, f: SweepFaults)
    requires Inv(s)
    ensures Inv(Sweep(s, k, f))
  {
    if k in s.outbox && !f.attemptRaises {
      OutboxIsDead(s, k);
      StepKeepsInv(s, Attempting(k));
      DeadForever(s, Attempting(k), k);
      var tried := Attempt(s, k);
      StepKeepsInv(tried, Deleting(k, f.delete));
      DeadForever(tried, Deleting(k, f.delete), k);
      if f.delete.Gone? {
        StepKeepsInv(DeleteBytes(tried, k, f.delete), Forgetting(k));
      }
    }
  }

  /** The whole pass keeps the invariant, whatever fails in it and whatever its list was. */
  lemma {:induction false} SweepAllKeepsInv(s: Store, keys: seq<Key>, faults: Key -> SweepFaults)
    requires Inv(s)
    ensures Inv(SweepAll(s, keys, faults))
  {
    if keys != [] {
      var n := |keys| - 1;
      SweepAllKeepsInv(s, keys[..n], faults);
      SweepKeepsInv(SweepAll(s, keys[..n], faults), keys[n], faults(keys[n]));
    }
  }

  // ---------- A run, then one repair ----------

  predicate Whole(m: Move) {
    m.Promotes? ==> WholeWrites(Promoting(m.id, m.promoteFaults))
  }

  predicate Recorded(m: Move) {
    && (m.Replaces? ==> !m.replaceFaults.persistRaises)
    && (m.Promotes? ==> !m.promoteFaults.persistRaises)
  }

  /** No leftover is known to the log only when recording leftovers always worked. */
  lemma {:induction false} NothingLost(s: System, run: seq<Move>)
    requires PossibleRun(s, run) && forall i :: 0 <= i < |run| ==> Recorded(run[i])
    ensures Run(s, run).store.lost == s.store.lost
    decreases |run|
  {
    if run != [] {
      assert Recorded(run[0]);
      if EventOf(s, run[0]).Some? {
        LostUnchanged(s.store, EventOf(s, run[0]).value);
      }
      NothingLost(Advance(s, run[0]), run[1..]);
    }
  }

  lemma {:induction false} WholeRunNeverSticks(s: System, run: seq<Move>)
    requires SystemInv(s) && PossibleRun(s, run) && forall i :: 0 <= i < |run| ==> Whole(run[i])
    requires forall id :: !Stuck(s.store, id)
    ensures SystemInv(Run(s, run)) && forall id :: !Stuck(Run(s, run).store, id)
    decreases |run|
  {
    if run != [] {
      assert Whole(run[0]);
      MoveIsEnabled(s, run[0]);
      MoveKeepsInv(s, run[0]);
      forall id ensures !Stuck(Advance(s, run[0]).store, id) {
        if EventOf(s, run[0]).Some? {
          WholeWritesNeverStick(s.store, EventOf(s, run[0]).value, id);
        }
      }
      WholeRunNeverSticks(Advance(s, run[0]), run[1..]);
    }
  }

  function LegacyKeys(s: Store): set<Key> {
    set k | k in s.blobs && IsLegacy(s, k)
  }

  function RowNames(s: Store): set<Key> {
    set id | id in s.images :: s.images[id].name
  }

  lemma RepairKeepsBooks(s: Store, ids: seq<nat>, keys: seq<Key>)
    requires Inv(s)
    ensures Repair(s, ids, keys).lost == s.lost && Repair(s, ids, keys).legacy == s.legacy
  {
    FaultFreePassKeepsBooks(s, ids);
    FaultFreeSweepAll(PromoteAll(s, ids, FaultFree), keys);
  }

  /** A repair is a run of its own, so legacy bytes stay. */
  lemma {:induction false} PassKeepsLegacy(s: Store, ids: seq<nat>, faults: nat -> PromoteFaults, k: Key)
    requires Inv(s) && IsLegacy(s, k)
    ensures var after := PromoteAll(s, ids, faults);
            Inv(after) && IsLegacy(after, k) && (k in after.blobs <==> k in s.blobs)
  {
    if ids != [] {
      var n := |ids| - 1;
      PassKeepsLegacy(s, ids[..n], faults, k);
      var before := PromoteAll(s, ids[..n], faults);
      PromoteKeepsInv(before, ids[n], faults(ids[n]));
      LegacyBytesUntouched(before, Promoting(ids[n], faults(ids[n])), k);
    }
  }

  lemma RepairKeepsLegacy(s: Store, ids: seq<nat>, keys: seq<Key>, k: Key)
    requires Inv(s) && IsLegacy(s, k)
    ensures IsLegacy(Repair(s, ids, keys), k) && (k in Repair(s, ids, keys).blobs <==> k in s.blobs)
  {
    PassKeepsLegacy(s, ids, FaultFree, k);
    var promoted := PromoteAll(s, ids, FaultFree);
    FaultFreeSweepAll(promoted, keys);
    assert k !in promoted.outbox;
  }

  /** From the first deployment: with whole writes of owned keys, every run followed by one fault-free
      repair ends with no pending row, an empty outbox and bytes for every row; and if recording leftovers
      never failed, what is stored is exactly the legacy images there were and one file for each row. */
  lemma WholeRunThenRepair(s: System, run: seq<Move>, ids: seq<nat>, keys: seq<Key>)
    requires Initial(s) && PossibleRun(s, run) && forall i :: 0 <= i < |run| ==> Whole(run[i])
    requires ListsPending(Run(s, run).store, ids) && ListsOutbox(Run(s, run).store, keys)
    ensures var after := Repair(Run(s, run).store, ids, keys);
            && after.outbox == map[]
            && (forall id :: !IsPending(after, id))
            && (forall id :: id in after.images ==> Holds(after, after.images[id].name, after.images[id].digest))
            && ((forall i :: 0 <= i < |run| ==> Recorded(run[i])) ==>
                  after.blobs.Keys == LegacyKeys(s.store) + RowNames(after) && LegacyKeys(s.store) !! RowNames(after))
  {
    FirstStoreIsSound(s.store);
    forall id ensures !Stuck(s.store, id) {
      assert id in s.store.images ==> Settled(s.store, s.store.images[id]);
    }
    WholeRunNeverSticks(s, run);
    var reached := Run(s, run).store;
    RepairConverges(reached, ids, keys);
    RepairedStorage(reached, ids, keys);
    if forall i :: 0 <= i < |run| ==> Recorded(run[i]) {
      NothingLost(s, run);
      StorageIsExact(s, run, ids, keys);
    }
  }

  /** The same legacy names and files, no log entries, and storage as a repair leaves it. */
  lemma ExactKeys(first: Store, after: Store)
    requires Inv(after) && after.lost == {} && after.legacy == first.legacy
    requires forall k :: IsLegacy(first, k) ==> (k in after.blobs <==> k in first.blobs)
    requires forall k :: k in after.blobs && k !in after.lost <==>
               (IsLegacy(after, k) && k in after.blobs) || (exists id :: id in after.images && after.images[id].name == k)
    ensures after.blobs.Keys == LegacyKeys(first) + RowNames(after) && LegacyKeys(first) !! RowNames(after)
  {
    forall id | id in after.images ensures !IsLegacy(first, after.images[id].name) {
      assert RowSound(after, after.images[id]);
      assert Names(after.images[id], after.images[id].name);
    }
    forall k: Key ensures k in after.blobs <==> k in LegacyKeys(first) || k in RowNames(after) {
      assert IsLegacy(after, k) <==> IsLegacy(first, k);
    }
  }

  lemma LegacyFilesLast(s: System, run: seq<Move>, ids: seq<nat>, keys: seq<Key>, k: Key)
    requires SystemInv(s) && PossibleRun(s, run) && IsLegacy(s.store, k)
    ensures k in Repair(Run(s, run).store, ids, keys).blobs <==> k in s.store.blobs
  {
    RunKeepsInv(s, run);
    LegacyBytesLast(s, run, k);
    RepairKeepsLegacy(Run(s, run).store, ids, keys, k);
  }

  lemma StorageIsExact(s: System, run: seq<Move>, ids: seq<nat>, keys: seq<Key>)
    requires SystemInv(s) && PossibleRun(s, run)
    requires ListsPending(Run(s, run).store, ids) && ListsOutbox(Run(s, run).store, keys)
    requires Run(s, run).store.lost == {} && forall id :: !Stuck(Run(s, run).store, id)
    ensures var after := Repair(Run(s, run).store, ids, keys);
            after.blobs.Keys == LegacyKeys(s.store) + RowNames(after) && LegacyKeys(s.store) !! RowNames(after)
  {
    RunKeepsInv(s, run);
    LegacyLasts(s, run);
    var reached := Run(s, run).store;
    RepairConverges(reached, ids, keys);
    RepairedStorage(reached, ids, keys);
    RepairKeepsBooks(reached, ids, keys);
    forall k | IsLegacy(s.store, k) ensures k in Repair(reached, ids, keys).blobs <==> k in s.store.blobs {
      LegacyFilesLast(s, run, ids, keys, k);
    }
    ExactKeys(s.store, Repair(reached, ids, keys));
  }
}
