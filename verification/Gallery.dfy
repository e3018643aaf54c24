/** The gallery image lifecycle (src/apps/catalog/services.py:177-395, src/apps/catalog/views.py:93-193):
    image rows in the database, bytes in blob storage, and a deletion outbox between them. Every
    storage call and every transaction may fail; what they do is an argument of each operation.

    A storage key is a number: 0 is the empty name and nextKey is the next name a generator hands
    out, so generated names are fresh. A digest keeps what it digests, so it is injective. */
module Gallery {
  import opened Base

  type Key = nat
  type Bytes = seq<bv8>

  datatype Digest = Sha256(of: Bytes)
  datatype Promotion = Pending | Promoted
  datatype Image = Image(product: nat, name: Key, owned: Key, digest: Digest, state: Promotion)

  /** legacy: the frozen Product.image names; outbox: keys awaiting deletion with their attempts;
      lost: keys that only the error log names, because recording them failed. */
  datatype Store = Store(
    legacy: map<nat, Key>,
    images: map<nat, Image>,
    nextImage: nat,
    nextKey: Key,
    blobs: map<Key, Bytes>,
    outbox: map<Key, nat>,
    lost: set<Key>)

  // ---------- What calls may do ----------

  /** A delete works, fails, or takes effect and still raises. */
  datatype Deletion = Gone | Kept | GoneButRaised

  /** A failed save of a temporary key writes nothing. */
  datatype TempSave = TempSaved | TempRenamed | TempRaised

  /** Saving an owned key may store other bytes, pick another name, or raise after a partial write. */
  datatype OwnedSave = Saved | Corrupted(bytes: Bytes) | Renamed | SaveRaised(partial: Option<Bytes>)

  /** One sanitized image, what saving it does, and what deleting it in a cleanup would do. */
  datatype Upload = Upload(content: Bytes, save: TempSave, cleanup: Deletion)

  /** Where a gallery replacement fails: before staging, in its row writes, in the rest of the
      caller's transaction or its commit; and whether recording leftovers then fails too. */
  datatype ReplaceFaults = ReplaceFaults(lockRaises: bool, rowsRaise: bool, viewRaises: bool, persistRaises: bool)

  datatype PromoteFaults = PromoteFaults(
    getRaises: bool, existsRaises: bool, readRaises: bool, openRaises: bool,
    save: OwnedSave, strayCleanup: Deletion, rereadRaises: bool,
    tempDelete: Deletion, commitRaises: bool, persistRaises: bool)

  function Delete(blobs: map<Key, Bytes>, k: Key, d: Deletion): map<Key, Bytes> {
    if d.Kept? then blobs else blobs - {k}
  }

  // ---------- Replacing a gallery ----------

  datatype Staging = Staging(blobs: map<Key, Bytes>, nextKey: Key, files: seq<(Key, Deletion)>, rows: seq<Image>, failed: bool)

  function LegacyName(s: Store, product: nat): Key {
    if product in s.legacy then s.legacy[product] else 0
  }

  function ImagesOf(s: Store, product: nat): set<nat> {
    set id | id in s.images && s.images[id].product == product
  }

  /** The names already in use around this product. */
  function ProtectedNames(s: Store, product: nat): set<Key> {
    ({LegacyName(s, product)}
     + (set id | id in ImagesOf(s, product) :: s.images[id].name)
     + (set id | id in ImagesOf(s, product) :: s.images[id].owned)) - {0}
  }

  function StageOne(st: Staging, protected: set<Key>, product: nat, u: Upload): Staging {
    var (temp, owned) := (st.nextKey, st.nextKey + 1);
    var drawn := st.(nextKey := st.nextKey + 2);
    if temp in protected || owned in protected then drawn.(failed := true)
    else
      match u.save
      case TempRaised => drawn.(failed := true)
      case TempRenamed =>
        var stray := drawn.nextKey;
        drawn.(nextKey := stray + 1, blobs := st.blobs[stray := u.content], files := st.files + [(stray, u.cleanup)], failed := true)
      case TempSaved =>
        drawn.(blobs := st.blobs[temp := u.content],
               files := st.files + [(temp, u.cleanup)],
               rows := st.rows + [Image(product, temp, owned, Sha256(u.content), Pending)])
  }

  /** Stage uploads one after another until one fails. The names drawn for one upload are
      protected from the next. */
  function Stage(st: Staging, protected: set<Key>, product: nat, uploads: seq<Upload>): Staging
    decreases |uploads|
  {
    if uploads == [] || st.failed then st
    else
      var next := StageOne(st, protected, product, uploads[0]);
      Stage(next, protected + {st.nextKey, st.nextKey + 1}, product, uploads[1..])
  }

  function CleanedBlobs(blobs: map<Key, Bytes>, files: seq<(Key, Deletion)>): map<Key, Bytes> {
    if files == [] then blobs
    else Delete(CleanedBlobs(blobs, files[..|files| - 1]), files[|files| - 1].0, files[|files| - 1].1)
  }

  function FailedKeys(files: seq<(Key, Deletion)>): set<Key> {
    set i | 0 <= i < |files| && !files[i].1.Gone? :: files[i].0
  }

  /** Put keys into the outbox; keys already there stay as they are. */
  function Enqueue(outbox: map<Key, nat>, keys: set<Key>): map<Key, nat> {
    (map k | k in keys && k != 0 :: 0) + outbox
  }

  /** Record leftovers after a rollback; if that fails, only the log names them. */
  function RecordLeftovers(s: Store, keys: set<Key>, persistRaises: bool): Store {
    if persistRaises then s.(lost := s.lost + (keys - {0}))
    else s.(outbox := Enqueue(s.outbox, keys))
  }

  /** The keys that an image gives up when its gallery is replaced. */
  function KeysGivenUp(image: Image): set<Key> {
    if image.state.Promoted? then {image.name} else {image.name, image.owned}
  }

  function Superseded(s: Store, product: nat): set<Key> {
    (set id, k | id in ImagesOf(s, product) && k in KeysGivenUp(s.images[id]) :: k) - {LegacyName(s, product)}
  }

  /** Insert rows under the next primary keys. */
  function Insert(images: map<nat, Image>, first: nat, rows: seq<Image>): (r: map<nat, Image>)
    ensures forall id :: id in r <==> id in images || first <= id < first + |rows|
    ensures forall id :: id in r ==> r[id] == if first <= id < first + |rows| then rows[id - first] else images[id]
  {
    if rows == [] then images else Insert(images, first, rows[..|rows| - 1])[first + |rows| - 1 := rows[|rows| - 1]]
  }

  function WithNewImages(s: Store, product: nat, rows: seq<Image>): Store {
    s.(images := Insert(map id | id in s.images && s.images[id].product != product :: s.images[id], s.nextImage, rows),
       nextImage := s.nextImage + |rows|)
  }

  function InitialStaging(s: Store): Staging {
    Staging(s.blobs, s.nextKey, [], [], false)
  }

  /** The transaction rolls back and the staged files are deleted or recorded. */
  function RolledBack(s: Store, st: Staging, persistRaises: bool): Store {
    RecordLeftovers(s.(blobs := CleanedBlobs(st.blobs, st.files), nextKey := st.nextKey), FailedKeys(st.files), persistRaises)
  }

  function Committed(s: Store, product: nat, st: Staging): Store {
    WithNewImages(s.(blobs := st.blobs, nextKey := st.nextKey, outbox := Enqueue(s.outbox, Superseded(s, product))), product, st.rows)
  }

  function Replace(s: Store, product: nat, uploads: seq<Upload>, f: ReplaceFaults): Store {
    if |uploads| > 4 || f.lockRaises then s
    else
      var st := Stage(InitialStaging(s), ProtectedNames(s, product), product, uploads);
      if st.failed || f.rowsRaise || f.viewRaises then RolledBack(s, st, f.persistRaises)
      else Committed(s, product, st)
  }

  // ---------- Promotion ----------

  datatype Promoting = Done | Skipped | Error

  /** The bytes part: the temporary bytes are copied to the owned key unless it already holds
      them. The result says whether the owned key is now known to hold the right bytes. */
  function CopyToOwned(s: Store, image: Image, f: PromoteFaults): (Store, bool) {
    if f.existsRaises then (s, false)
    else if image.owned in s.blobs then (s, !f.readRaises && Sha256(s.blobs[image.owned]) == image.digest)
    else if f.openRaises || image.name !in s.blobs then (s, false)
    else
      match f.save
      case SaveRaised(None) => (s, false)
      case SaveRaised(Some(partial)) => (s.(blobs := s.blobs[image.owned := partial]), false)
      case Renamed =>
        var stray := s.nextKey;
        var saved := s.blobs[stray := s.blobs[image.name]];
        var cleaned := s.(nextKey := stray + 1, blobs := Delete(saved, stray, f.strayCleanup));
        (RecordLeftovers(cleaned, if f.strayCleanup.Gone? then {} else {stray}, f.persistRaises), false)
      case Saved =>
        (s.(blobs := s.blobs[image.owned := s.blobs[image.name]]), !f.rereadRaises && Sha256(s.blobs[image.name]) == image.digest)
      case Corrupted(bytes) =>
        (s.(blobs := s.blobs[image.owned := bytes]), !f.rereadRaises && Sha256(bytes) == image.digest)
  }

  function Promote(s: Store, id: nat, f: PromoteFaults): (Store, Promoting) {
    if f.getRaises || id !in s.images then (s, Error)
    else if s.images[id].state.Promoted? then (s, Skipped)
    else
      var image := s.images[id];
      var (copied, verified) := CopyToOwned(s, image, f);
      if !verified then (copied, Error)
      else
        var deleted := copied.(blobs := Delete(copied.blobs, image.name, f.tempDelete));
        if !f.tempDelete.Gone? || f.commitRaises then (deleted, Error)
        else (deleted.(images := deleted.images[id := image.(name := image.owned, state := Promoted)]), Done)
  }

  function PromoteAll(s: Store, ids: seq<nat>, faults: nat -> PromoteFaults): Store {
    if ids == [] then s
    else
      var n := |ids| - 1;
      Promote(PromoteAll(s, ids[..n], faults), ids[n], faults(ids[n])).0
  }

  // ---------- Deletion ----------

  /** The three steps of one deletion: count the attempt, delete the bytes, drop the intent. */
  datatype SweepFaults = SweepFaults(attemptRaises: bool, delete: Deletion, forgetRaises: bool)

  function Attempt(s: Store, k: Key): Store {
    if k in s.outbox then s.(outbox := s.outbox[k := s.outbox[k] + 1]) else s
  }

  function DeleteBytes(s: Store, k: Key, d: Deletion): Store {
    s.(blobs := Delete(s.blobs, k, d))
  }

  function Forget(s: Store, k: Key): Store {
    s.(outbox := s.outbox - {k})
  }

  function Sweep(s: Store, k: Key, f: SweepFaults): Store {
    if k !in s.outbox || f.attemptRaises then s
    else
      var deleted := DeleteBytes(Attempt(s, k), k, f.delete);
      if !f.delete.Gone? || f.forgetRaises then deleted else Forget(deleted, k)
  }

  function SweepAll(s: Store, keys: seq<Key>, faults: Key -> SweepFaults): Store {
    if keys == [] then s
    else
      var n := |keys| - 1;
      Sweep(SweepAll(s, keys[..n], faults), keys[n], faults(keys[n]))
  }
}
