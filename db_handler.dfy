/** The persistence layer of db_handler.py: one cached record file per Discord id
    (`data/<id>.json`), a PostgreSQL table `users` keyed by `discord_id` that every save
    upserts the full record into, local artifact files under `data/`, and the
    object-storage bucket the artifacts are mirrored to. Startup recovery rebuilds the
    cache from the table and fetches the pending artifacts that are missing locally.

    Ids are the strings `str(discord_id)`. File contents round-trip through JSON
    unchanged, so a cached file is modelled by the record it holds. */
module DbHandler {
  import opened Common

  /** One entry of `images` or `videos`: the CDN or Streamable url, the local path
      returned by the download (None when it failed), the upload timestamp, the status. */
  datatype Attachment = Attachment(sourceUrl: string, path: Option<string>, uploaded: string, status: string)

  /** A cached user record: the ten attributes of `attributes_list`, and whatever other
      keys other code added to the file (`extra`). */
  datatype Record = Record(
    discordId: string,
    discordName: Option<string>,
    dmLink: Option<string>,
    epicName: Option<string>,
    timestampEpicName: Option<string>,
    images: seq<Attachment>,
    videos: seq<Attachment>,
    stepState: Option<string>,
    pointsAssigned: Option<int>,
    reactedHand: Option<bool>,
    extra: map<string, Json>)

  /** A row of the `users` table, less its key column `discord_id`. */
  datatype Row = Row(
    discordName: Option<string>,
    dmLink: Option<string>,
    epicName: Option<string>,
    timestampEpicName: Option<string>,
    images: seq<Attachment>,
    videos: seq<Attachment>,
    stepState: Option<string>,
    pointsAssigned: Option<int>,
    reactedHand: Option<bool>)

  /** A save_user_data_to_pg task: the id it was called with and the record it carries. */
  datatype Write = Write(id: string, record: Record)

  const DbDir := "data"

  /** get_user_file: `data/<id>.json`. */
  function UserFile(id: string): (path: string)
    ensures |path| == |id| + 10
    ensures path[..5] == "data/" && path[5..|path| - 5] == id && path[|path| - 5..] == ".json"
  {
    DbDir + "/" + id + ".json"
  }

  /** Different ids never share a cache file: the id is the join key of the cache. */
  lemma UserFileInjective(a: string, b: string)
    requires UserFile(a) == UserFile(b)
    ensures a == b
  {
    var p := DbDir + "/";
    assert UserFile(a) == p + a + ".json" && UserFile(b) == p + b + ".json";
    assert |a| == |b|;
    assert a == UserFile(a)[|p|..|p| + |a|];
    assert b == UserFile(b)[|p|..|p| + |b|];
  }

  /** The record initialize_key creates: `discord_id = str(id)`, no images or videos,
      step `"epic_name"`, `reacted_hand = False`, every other attribute None. */
  function DefaultRecord(id: string): Record {
    Record(id, None, None, None, None, [], [], Some("epic_name"), None, Some(false), map[])
  }

  /** The cache after initialize_key(id). */
  function Initialized(cache: map<string, Record>, id: string): (c: map<string, Record>)
    ensures id in c && c.Keys == cache.Keys + {id}
    ensures id in cache ==> c == cache
    ensures id !in cache ==> c[id] == DefaultRecord(id) && forall k :: k in cache ==> c[k] == cache[k]
  {
    if id in cache then cache else cache[id := DefaultRecord(id)]
  }

  lemma InitializeIsIdempotent(cache: map<string, Record>, id: string)
    ensures Initialized(Initialized(cache, id), id) == Initialized(cache, id)
  {
  }

  // ---------------------------------------------------------------------------
  // The record transitions of the save functions

  /** The name an upload gets: `"<id>_<n+1>.png"` after `n` earlier images. */
  function ImageName(id: string, n: nat): string {
    id + "_" + NatToString(n + 1) + ".png"
  }

  /** `"<id>_<n+1>.mp4"` after `n` earlier videos. */
  function VideoName(id: string, n: nat): string {
    id + "_" + NatToString(n + 1) + ".mp4"
  }

  /** The path download_image / download_video return on success. */
  function LocalPath(name: string): string {
    DbDir + "/" + name
  }

  /** save_epic_name_to_database on a record without an Epic name. */
  function WithEpicName(r: Record, discordName: string, epicName: string, now: string): (r': Record)
    ensures r'.(epicName := r.epicName, discordName := r.discordName,
                timestampEpicName := r.timestampEpicName, stepState := r.stepState) == r
    ensures r'.epicName == Some(epicName) && r'.discordName == Some(discordName)
    ensures r'.timestampEpicName == Some(now) && r'.stepState == Some("image_proof")
  {
    r.(epicName := Some(epicName), discordName := Some(discordName),
       timestampEpicName := Some(now), stepState := Some("image_proof"))
  }

  /** save_image_to_database: one pending image appended, the step set to `"wait"`. */
  function WithImage(r: Record, url: string, path: Option<string>, now: string): (r': Record)
    ensures r'.(images := r.images, stepState := r.stepState) == r
    ensures r'.images == r.images + [Attachment(url, path, now, "pending")]
    ensures r'.stepState == Some("wait")
  {
    r.(images := r.images + [Attachment(url, path, now, "pending")], stepState := Some("wait"))
  }

  /** save_video_to_database: one pending video appended, the step set to `"wait"`. */
  function WithVideo(r: Record, url: string, path: Option<string>, now: string): (r': Record)
    ensures r'.(videos := r.videos, stepState := r.stepState) == r
    ensures r'.videos == r.videos + [Attachment(url, path, now, "pending")]
    ensures r'.stepState == Some("wait")
  {
    r.(videos := r.videos + [Attachment(url, path, now, "pending")], stepState := Some("wait"))
  }

  function CountPending(atts: seq<Attachment>): (n: nat)
    ensures n <= |atts|
  {
    if atts == [] then 0
    else CountPending(atts[..|atts| - 1]) + (if atts[|atts| - 1].status == "pending" then 1 else 0)
  }

  /** An image save adds exactly one pending image, keeps every earlier entry as it was,
      and leaves the videos alone. */
  lemma {:induction false} ImageSaveAddsOnePending(r: Record, url: string, path: Option<string>, now: string)
    ensures var r' := WithImage(r, url, path, now);
            |r'.images| == |r.images| + 1 && r'.images[..|r.images|] == r.images
            && CountPending(r'.images) == CountPending(r.images) + 1
            && r'.videos == r.videos && r'.stepState == Some("wait")
  {
    var r' := WithImage(r, url, path, now);
    assert r'.images[..|r'.images| - 1] == r.images;
  }

  /** Each earlier image count gives a different file name, so an image save never reuses
      the name of an earlier image of the same user. */
  lemma ImageNamesAreDistinct(id: string, n: nat, m: nat)
    requires n != m
    ensures ImageName(id, n) != ImageName(id, m)
  {
    if ImageName(id, n) == ImageName(id, m) {
      var a, b := NatToString(n + 1), NatToString(m + 1);
      var p := id + "_";
      assert ImageName(id, n) == p + a + ".png" && ImageName(id, m) == p + b + ".png";
      assert |a| == |b|;
      assert a == ImageName(id, n)[|p|..|p| + |a|];
      assert b == ImageName(id, m)[|p|..|p| + |b|];
      NatToStringInjective(n + 1, m + 1);
    }
  }

  // ---------------------------------------------------------------------------
  // The durable table

  /** The ten columns save_user_data_to_pg writes; `extra` keys are not persisted. */
  function ToRow(r: Record): Row {
    Row(r.discordName, r.dmLink, r.epicName, r.timestampEpicName, r.images, r.videos,
        r.stepState, r.pointsAssigned, r.reactedHand)
  }

  /** The record restore_filesystem_from_db builds from the row of `id`. */
  function FromRow(id: string, row: Row): (r: Record)
    ensures r.discordId == id && r.extra == map[]
  {
    Record(id, row.discordName, row.dmLink, row.epicName, row.timestampEpicName,
           row.images, row.videos, row.stepState, row.pointsAssigned, row.reactedHand, map[])
  }

  /** Restore then upsert writes back the row it read. */
  lemma RestoreUpsertRoundTrip(id: string, row: Row)
    ensures ToRow(FromRow(id, row)) == row
  {
  }

  /** Upsert then restore gives back the record with the key as its id and without the
      keys outside the ten columns, and gives back the record itself exactly when it had
      no such keys and carried its own id. */
  lemma UpsertRestoreRoundTrip(id: string, r: Record)
    ensures FromRow(id, ToRow(r)) == r.(discordId := id, extra := map[])
    ensures FromRow(id, ToRow(r)) == r <==> r.discordId == id && r.extra == map[]
    ensures ToRow(FromRow(id, ToRow(r))) == ToRow(r)
  {
  }

  /** The table after every task in `ws` ran successfully, in order (a full-row upsert on
      `discord_id` each). */
  function ApplyWrites(rows: map<string, Row>, ws: seq<Write>): map<string, Row>
    decreases |ws|
  {
    if ws == [] then rows
    else ApplyWrites(rows, ws[..|ws| - 1])[ws[|ws| - 1].id := ToRow(ws[|ws| - 1].record)]
  }

  /** Last write wins: the row of an id is the full row of the last write for it, never a
      mix, and an id no write names keeps its row. */
  lemma {:induction false} LastWriteWins(rows: map<string, Row>, ws: seq<Write>, id: string)
    ensures (exists k :: 0 <= k < |ws| && ws[k].id == id) ==>
              var k := LastIndexOf(ws, id);
              id in ApplyWrites(rows, ws) && ApplyWrites(rows, ws)[id] == ToRow(ws[k].record)
    ensures (forall k :: 0 <= k < |ws| ==> ws[k].id != id) ==>
              (id in ApplyWrites(rows, ws) <==> id in rows)
              && (id in rows ==> ApplyWrites(rows, ws)[id] == rows[id])
    decreases |ws|
  {
    if ws != [] {
      var init := ws[..|ws| - 1];
      LastWriteWins(rows, init, id);
      if ws[|ws| - 1].id != id {
        if exists k :: 0 <= k < |ws| && ws[k].id == id {
          var k :| 0 <= k < |ws| && ws[k].id == id;
          assert init[k].id == id;
          assert LastIndexOf(ws, id) == LastIndexOf(init, id);
        }
        if forall k :: 0 <= k < |ws| ==> ws[k].id != id {
          assert forall k :: 0 <= k < |init| ==> init[k].id != id by {
            forall k | 0 <= k < |init| ensures init[k].id != id { assert init[k] == ws[k]; }
          }
        }
      }
    }
  }

  /** The index of the last write for `id`. */
  function LastIndexOf(ws: seq<Write>, id: string): (k: nat)
    requires exists k :: 0 <= k < |ws| && ws[k].id == id
    ensures k < |ws| && ws[k].id == id
    ensures forall j :: k < j < |ws| ==> ws[j].id != id
    decreases |ws|
  {
    if ws[|ws| - 1].id == id then |ws| - 1
    else
      var init := ws[..|ws| - 1];
      var k :| 0 <= k < |ws| && ws[k].id == id;
      assert init[k].id == id;
      LastIndexOf(init, id)
  }

  // ---------------------------------------------------------------------------
  // Recovery

  /** os.path.basename: the text after the last '/'. */
  function Basename(p: string): (b: string)
    ensures '/' !in b
  {
    if p == [] || p[|p| - 1] == '/' then [] else Basename(p[..|p| - 1]) + [p[|p| - 1]]
  }

  /** The file a save wrote is the one restore looks for: the basename of the stored path
      is the artifact's name again. */
  lemma {:induction false} BasenameOfLocalPath(name: string)
    requires '/' !in name
    ensures Basename(LocalPath(name)) == name
    decreases |name|
  {
    if name != [] {
      var init := name[..|name| - 1];
      assert LocalPath(name)[..|LocalPath(name)| - 1] == LocalPath(init);
      BasenameOfLocalPath(init);
    } else {
      assert LocalPath(name) == "data/";
    }
  }

  predicate IsPending(a: Attachment) {
    a.status == "pending"
  }

  /** A pending attachment without a path: `os.path.basename(None)` raises outside the
      per-artifact `try`, which ends the whole restore. */
  predicate Unrestorable(a: Attachment) {
    IsPending(a) && a.path.None?
  }

  /** Some attachment of the list cannot be restored. */
  predicate Blocks(atts: seq<Attachment>) {
    atts != [] && (Blocks(atts[..|atts| - 1]) || Unrestorable(atts[|atts| - 1]))
  }

  lemma {:induction false} BlocksIff(atts: seq<Attachment>)
    ensures Blocks(atts) <==> exists a :: a in atts && Unrestorable(a)
    decreases |atts|
  {
    if atts != [] {
      var init := atts[..|atts| - 1];
      BlocksIff(init);
      if exists a :: a in atts && Unrestorable(a) {
        var a :| a in atts && Unrestorable(a);
        if a != atts[|atts| - 1] {
          var k :| 0 <= k < |atts| && atts[k] == a;
          assert init[k] == a;
        }
      }
      assert forall a :: a in init ==> a in atts;
    }
  }

  /** A row whose images or videos hold an attachment that cannot be restored. */
  predicate RowBlocksRestore(row: Row) {
    Blocks(row.images) || Blocks(row.videos)
  }

  /** The artifact names restore wants for these attachments: the basenames of the
      pending ones. */
  function Wanted(atts: seq<Attachment>): set<string>
  {
    if atts == [] then {}
    else
      var a := atts[|atts| - 1];
      Wanted(atts[..|atts| - 1]) + (if IsPending(a) && a.path.Some? then {Basename(a.path.value)} else {})
  }

  /** No row listed in `order` holds an attachment that would abort the restore. */
  predicate NoneBlocks(rows: map<string, Row>, order: seq<string>)
  {
    order == []
    || (NoneBlocks(rows, order[..|order| - 1])
        && (order[|order| - 1] in rows ==> !RowBlocksRestore(rows[order[|order| - 1]])))
  }

  lemma {:induction false} NoneBlocksMember(rows: map<string, Row>, order: seq<string>, id: string)
    requires NoneBlocks(rows, order) && id in order && id in rows
    ensures !RowBlocksRestore(rows[id])
    decreases |order|
  {
    if order[|order| - 1] != id {
      var init := order[..|order| - 1];
      assert id in init by {
        var k :| 0 <= k < |order| && order[k] == id;
        assert init[k] == id;
      }
      NoneBlocksMember(rows, init, id);
    }
  }

  /** The names wanted for the rows listed in `order` (an id without a row adds none). */
  function WantedRows(rows: map<string, Row>, order: seq<string>): set<string>
  {
    if order == [] then {}
    else
      var id := order[|order| - 1];
      WantedRows(rows, order[..|order| - 1])
        + (if id in rows then Wanted(rows[id].images) + Wanted(rows[id].videos) else {})
  }

  /** The cache entries restore writes for the given ids. */
  function Restored(rows: map<string, Row>, order: seq<string>): map<string, Record>
  {
    map id | id in order && id in rows :: FromRow(id, rows[id])
  }

  /** The save_user_data_to_pg tasks restore schedules (it saves through save_user_data). */
  function RestoreWrites(rows: map<string, Row>, order: seq<string>): (ws: seq<Write>)
    ensures |ws| <= |order|
  {
    if order == [] then []
    else
      var id := order[|order| - 1];
      RestoreWrites(rows, order[..|order| - 1]) + (if id in rows then [Write(id, FromRow(id, rows[id]))] else [])
  }

  /** The cache and the local artifacts after a restore that completes: every row
      overwrites its cache entry, and every wanted artifact the bucket holds is on disk. */
  function RestoredState(cache: map<string, Record>, local: set<string>, blobs: set<string>,
                         rows: map<string, Row>, order: seq<string>): (map<string, Record>, set<string>)
  {
    (cache + Restored(rows, order), local + (WantedRows(rows, order) * blobs))
  }

  /** Restore is idempotent: on the state a completed restore left, a second restore over
      the same rows changes neither the cache nor the local artifacts, and it finds no
      wanted artifact of the bucket missing, so it fetches nothing new. */
  lemma RestoreIsIdempotent(cache: map<string, Record>, local: set<string>, blobs: set<string>,
                            rows: map<string, Row>, order: seq<string>)
    ensures var s := RestoredState(cache, local, blobs, rows, order);
            RestoredState(s.0, s.1, blobs, rows, order) == s
    ensures var s := RestoredState(cache, local, blobs, rows, order);
            forall n :: n in WantedRows(rows, order) && n in blobs ==> n in s.1
  {
    var s := RestoredState(cache, local, blobs, rows, order);
    assert s.0 + Restored(rows, order) == s.0;
  }

  /** The process-wide state db_handler.py works on. */
  class Store {
    /** the record files `data/<id>.json`, by id */
    var cache: map<string, Record>
    /** the artifact files under `data/`, by name */
    var local: set<string>
    /** the keys of the object-storage bucket */
    var blobs: set<string>
    /** the `users` table, by `discord_id` */
    var rows: map<string, Row>
    /** save_user_data_to_pg tasks created and not yet run, in creation order. Each is an
        independent task on the event loop; the model runs them one at a time in the
        order they were created. */
    var writes: seq<Write>

    constructor (rows: map<string, Row>, blobs: set<string>)
      ensures this.rows == rows && this.blobs == blobs
      ensures cache == map[] && local == {} && writes == []
    {
      this.rows := rows;
      this.blobs := blobs;
      cache, local, writes := map[], {}, [];
    }

    /** load_user_data: the cached record, or None when there is no file. */
    function LoadUserData(id: string): (r: Option<Record>)
      reads this
      ensures r.Some? <==> id in cache
      ensures r.Some? ==> r.value == cache[id]
    {
      if id in cache then Some(cache[id]) else None
    }

    /** initialize_key: writes the default record when there is no file; it does not
        schedule a durable write. */
    method InitializeKey(id: string)
      modifies this`cache
      ensures cache == Initialized(old(cache), id)
    {
      if id !in cache {
        cache := cache[id := DefaultRecord(id)];
      }
    }

    /** save_user_data: writes the whole record to the cache and schedules the upsert of
        that same record. */
    method SaveUserData(id: string, r: Record)
      modifies this`cache, this`writes
      ensures cache == old(cache)[id := r]
      ensures writes == old(writes) + [Write(id, r)]
    {
      cache := cache[id := r];
      writes := writes + [Write(id, r)];
    }

    /** save_dm_link_to_database. */
    method SaveDmLink(id: string, dmLink: string)
      modifies this`cache, this`writes
      ensures var r := Initialized(old(cache), id)[id].(dmLink := Some(dmLink));
              cache == old(cache)[id := r] && writes == old(writes) + [Write(id, r)]
    {
      InitializeKey(id);
      var r := cache[id];
      SaveUserData(id, r.(dmLink := Some(dmLink)));
    }

    /** save_epic_name_to_database, called from the bot's event loop: it saves the record
        as loaded (a durable write even when nothing changes), then, only when no Epic name
        is recorded yet, records the names, the timestamp and the step `"image_proof"` and
        saves again. The first upsert task holds the same dict, and the dict is changed
        before the task runs, so when the name is accepted both upserts carry the new
        record. */
    method SaveEpicName(id: string, discordName: string, epicName: string, now: string)
      returns (accepted: bool)
      modifies this`cache, this`writes
      ensures var r := Initialized(old(cache), id)[id];
              var r' := WithEpicName(r, discordName, epicName, now);
              && accepted == r.epicName.None?
              && (accepted ==>
                    cache == old(cache)[id := r']
                    && writes == old(writes) + [Write(id, r'), Write(id, r')])
              && (!accepted ==>
                    cache == Initialized(old(cache), id) && writes == old(writes) + [Write(id, r)])
    {
      InitializeKey(id);
      var r := cache[id];
      if r.epicName.None? {
        var r' := WithEpicName(r, discordName, epicName, now);
        // the first save writes the file as loaded and schedules the shared dict
        writes := writes + [Write(id, r')];
        SaveUserData(id, r');
        accepted := true;
      } else {
        SaveUserData(id, r);
        accepted := false;
      }
    }

    /** save_image_to_database. `fetched` says whether download_image got the file and
        `uploaded` whether its background upload to the bucket succeeded; a failed
        download leaves a pending entry whose path is None. */
    method SaveImage(id: string, url: string, fetched: bool, uploaded: bool, now: string)
      modifies this`cache, this`writes, this`local, this`blobs
      ensures var r := Initialized(old(cache), id)[id];
              var name := ImageName(id, |r.images|);
              var r' := WithImage(r, url, if fetched then Some(LocalPath(name)) else None, now);
              && cache == old(cache)[id := r'] && writes == old(writes) + [Write(id, r')]
              && local == (if fetched then old(local) + {name} else old(local))
              && blobs == (if fetched && uploaded then old(blobs) + {name} else old(blobs))
    {
      InitializeKey(id);
      var r := cache[id];
      var name := ImageName(id, |r.images|);
      var path: Option<string> := None;
      if fetched {
        local := local + {name};
        path := Some(LocalPath(name));
        if uploaded {
          blobs := blobs + {name};
        }
      }
      SaveUserData(id, WithImage(r, url, path, now));
    }

    /** save_video_to_database, as SaveImage with `.mp4` names. */
    method SaveVideo(id: string, url: string, fetched: bool, uploaded: bool, now: string)
      modifies this`cache, this`writes, this`local, this`blobs
      ensures var r := Initialized(old(cache), id)[id];
              var name := VideoName(id, |r.videos|);
              var r' := WithVideo(r, url, if fetched then Some(LocalPath(name)) else None, now);
              && cache == old(cache)[id := r'] && writes == old(writes) + [Write(id, r')]
              && local == (if fetched then old(local) + {name} else old(local))
              && blobs == (if fetched && uploaded then old(blobs) + {name} else old(blobs))
    {
      InitializeKey(id);
      var r := cache[id];
      var name := VideoName(id, |r.videos|);
      var path: Option<string> := None;
      if fetched {
        local := local + {name};
        path := Some(LocalPath(name));
        if uploaded {
          blobs := blobs + {name};
        }
      }
      SaveUserData(id, WithVideo(r, url, path, now));
    }

    /** The earliest created save_user_data_to_pg task that has not run yet runs: the
        upsert of its full record when the
        database accepts it; a failure is caught and only logged, so the table is
        unchanged and nothing propagates. */
    method RunPgWrite(succeeds: bool) returns (ran: bool)
      modifies this`writes, this`rows
      ensures ran == (old(writes) != [])
      ensures ran ==> writes == old(writes)[1..]
                      && rows == if succeeds then ApplyWrites(old(rows), [old(writes)[0]]) else old(rows)
      ensures !ran ==> writes == old(writes) && rows == old(rows)
    {
      if writes == [] {
        return false;
      }
      var w := writes[0];
      writes := writes[1..];
      if succeeds {
        rows := rows[w.id := ToRow(w.record)];
        assert rows == ApplyWrites(old(rows), [w]) by {
          assert [w][..0] == [];
        }
      }
      ran := true;
    }

    /** restore_filesystem_from_db, with the table's rows streamed in the order `order`.
        Every row overwrites its cache entry (and, through save_user_data, schedules its
        upsert again); then every pending image and video whose file is missing under
        `data/` is downloaded from the bucket, which succeeds when the bucket holds the
        key. A pending entry without a path aborts the restore (`ok` false). */
    method Restore(order: seq<string>) returns (ok: bool, downloads: seq<string>)
      requires forall id :: id in order <==> id in rows
      modifies this`cache, this`writes, this`local
      ensures ok <==> forall id :: id in rows ==> !RowBlocksRestore(rows[id])
      ensures ok ==> cache == RestoredState(old(cache), old(local), blobs, rows, order).0
      ensures ok ==> writes == old(writes) + RestoreWrites(rows, order)
      ensures ok ==> local == RestoredState(old(cache), old(local), blobs, rows, order).1
      ensures forall k :: 0 <= k < |downloads| ==> downloads[k] !in old(local)
      ensures ok ==> forall k :: 0 <= k < |downloads| ==> downloads[k] in WantedRows(rows, order)
      ensures ok ==> forall n :: n in WantedRows(rows, order) && n !in old(local) ==> n in downloads
      ensures !ok ==> exists i :: 0 <= i < |order| && NoneBlocks(rows, order[..i])
                                  && RowBlocksRestore(rows[order[i]])
                                  && cache == old(cache) + Restored(rows, order[..i + 1])
                                  && writes == old(writes) + RestoreWrites(rows, order[..i + 1])
    {
      ghost var c0, w0, l0 := cache, writes, local;
      downloads := [];
      var i := 0;
      while i < |order|
        invariant 0 <= i <= |order|
        invariant RestoredPrefix(c0, w0, l0, order, i, downloads)
      {
        var okRow;
        okRow, downloads := RestoreNext(order, i, c0, w0, l0, downloads);
        if !okRow {
          assert NoneBlocks(rows, order[..i]) && RowBlocksRestore(rows[order[i]]);
          ok := false;
          return;
        }
        i := i + 1;
      }
      assert order[..i] == order;
      ok := true;
      forall id | id in rows ensures !RowBlocksRestore(rows[id]) {
        NoneBlocksMember(rows, order, id);
      }
    }

    /** The state after the rows `order[..i]` are restored, from the cache `c0`, the tasks
        `w0` and the local artifacts `l0` restore began with, `downloads` the names
        fetched so far. */
    ghost predicate RestoredPrefix(c0: map<string, Record>, w0: seq<Write>, l0: set<string>,
                                   order: seq<string>, i: nat, downloads: seq<string>)
      reads this
      requires i <= |order|
    {
      && NoneBlocks(rows, order[..i])
      && cache == c0 + Restored(rows, order[..i])
      && writes == w0 + RestoreWrites(rows, order[..i])
      && local == l0 + (WantedRows(rows, order[..i]) * blobs)
      && (forall k :: 0 <= k < |downloads| ==>
            downloads[k] !in l0 && downloads[k] in WantedRows(rows, order[..i]))
      && (forall n :: n in WantedRows(rows, order[..i]) && n !in l0 ==> n in downloads)
    }

    /** One pass of restore's loop: the row of `order[i]` is restored, and either the
        prefix grows by one row or that row aborts the restore. */
    method RestoreNext(order: seq<string>, i: nat, ghost c0: map<string, Record>, ghost w0: seq<Write>,
                       ghost l0: set<string>, d0: seq<string>) returns (ok: bool, downloads: seq<string>)
      requires i < |order| && order[i] in rows
      requires RestoredPrefix(c0, w0, l0, order, i, d0)
      modifies this`cache, this`writes, this`local
      ensures ok ==> RestoredPrefix(c0, w0, l0, order, i + 1, downloads)
      ensures !ok ==> RowBlocksRestore(rows[order[i]])
      ensures !ok ==> cache == c0 + Restored(rows, order[..i + 1])
                      && writes == w0 + RestoreWrites(rows, order[..i + 1])
      ensures forall k :: 0 <= k < |downloads| ==> downloads[k] !in l0
    {
      var id := order[i];
      ghost var prefix, local1 := order[..i], local;
      assert order[..i + 1] == prefix + [id];
      RestoredSnoc(rows, prefix, id);
      var dRow;
      ok, dRow := RestoreRow(id);
      downloads := d0 + dRow;
      DownloadStep(l0, WantedRows(rows, prefix), Wanted(rows[id].images) + Wanted(rows[id].videos),
                   blobs, local1, local, d0, dRow, ok);
      MapUpdateAfterMerge(c0, Restored(rows, prefix), id, FromRow(id, rows[id]));
    }

    /** One row of the restore: the cache entry is overwritten from the row (scheduling
        its upsert again), then the pending images and the pending videos are repaired. */
    method RestoreRow(id: string) returns (ok: bool, downloads: seq<string>)
      requires id in rows
      modifies this`cache, this`writes, this`local
      ensures cache == old(cache)[id := FromRow(id, rows[id])]
      ensures writes == old(writes) + [Write(id, FromRow(id, rows[id]))]
      ensures local >= old(local)
      ensures ok <==> !RowBlocksRestore(rows[id])
      ensures ok ==> local == old(local) + (Wanted(rows[id].images) + Wanted(rows[id].videos)) * blobs
      ensures forall k :: 0 <= k < |downloads| ==>
                downloads[k] !in old(local) && downloads[k] in Wanted(rows[id].images) + Wanted(rows[id].videos)
      ensures ok ==> forall n :: n in Wanted(rows[id].images) + Wanted(rows[id].videos) && n !in old(local)
                                 ==> n in downloads
    {
      var row := rows[id];
      SaveUserData(id, FromRow(id, row));
      var okImages, dImages := RestoreArtifacts(row.images);
      downloads := dImages;
      if !okImages {
        ok := false;
        return;
      }
      ghost var local1 := local;
      var okVideos, dVideos := RestoreArtifacts(row.videos);
      DownloadStep(old(local), Wanted(row.images), Wanted(row.videos), blobs,
                   local1, local, dImages, dVideos, okVideos);
      downloads := downloads + dVideos;
      ok := okVideos;
    }

    /** The download loop over one attachment list: pending entries whose file is
        missing are fetched from the bucket, and an entry without a path aborts. */
    method RestoreArtifacts(atts: seq<Attachment>) returns (ok: bool, downloads: seq<string>)
      modifies this`local
      ensures local >= old(local)
      ensures ok <==> !Blocks(atts)
      ensures ok ==> local == old(local) + Wanted(atts) * blobs
      ensures forall k :: 0 <= k < |downloads| ==> downloads[k] !in old(local) && downloads[k] in Wanted(atts)
      ensures ok ==> forall n :: n in Wanted(atts) && n !in old(local) ==> n in downloads
    {
      downloads := [];
      var j := 0;
      while j < |atts|
        invariant 0 <= j <= |atts|
        invariant !Blocks(atts[..j])
        invariant local == old(local) + Wanted(atts[..j]) * blobs
        invariant forall k :: 0 <= k < |downloads| ==> downloads[k] !in old(local) && downloads[k] in Wanted(atts[..j])
        invariant forall n :: n in Wanted(atts[..j]) && n !in old(local) ==> n in downloads
      {
        var a := atts[j];
        assert atts[..j + 1][..j] == atts[..j] && atts[..j + 1][j] == a;
        WantedGrows(atts[..j], atts[..j + 1]);
        if IsPending(a) {
          if a.path.None? {
            ok := false;
            assert a in atts && Unrestorable(a);
            BlocksIff(atts);
            WantedPrefix(atts, j);
            return;
          }
          var name := Basename(a.path.value);
          if name !in local {
            downloads := downloads + [name];
            if name in blobs {
              local := local + {name};
            }
          }
        }
        j := j + 1;
      }
      assert atts[..j] == atts;
      ok := true;
    }

    /** The download loop as the per-artifact `try` evidently intends it: a pending entry
        without a path has no file to fetch and is skipped, so every other wanted file that
        the bucket holds is restored. */
    method RestoreArtifactsSkipping(atts: seq<Attachment>) returns (downloads: seq<string>)
      modifies this`local
      ensures local == old(local) + Wanted(atts) * blobs
      ensures forall k :: 0 <= k < |downloads| ==> downloads[k] !in old(local) && downloads[k] in Wanted(atts)
      ensures forall n :: n in Wanted(atts) && n !in old(local) ==> n in downloads
    {
      downloads := [];
      var j := 0;
      while j < |atts|
        invariant 0 <= j <= |atts|
        invariant local == old(local) + Wanted(atts[..j]) * blobs
        invariant forall k :: 0 <= k < |downloads| ==> downloads[k] !in old(local) && downloads[k] in Wanted(atts[..j])
        invariant forall n :: n in Wanted(atts[..j]) && n !in old(local) ==> n in downloads
      {
        var a := atts[j];
        assert atts[..j + 1][..j] == atts[..j] && atts[..j + 1][j] == a;
        WantedGrows(atts[..j], atts[..j + 1]);
        if IsPending(a) && a.path.Some? {
          var name := Basename(a.path.value);
          if name !in local {
            downloads := downloads + [name];
            if name in blobs {
              local := local + {name};
            }
          }
        }
        j := j + 1;
      }
      assert atts[..j] == atts;
    }
  }

  /** A failed image download leaves a pending entry without a path, and such a row makes
      every later restore stop at it. */
  lemma FailedDownloadBlocksRestore(r: Record, url: string, now: string)
    ensures RowBlocksRestore(ToRow(WithImage(r, url, None, now)))
  {
    var atts := WithImage(r, url, None, now).images;
    assert Unrestorable(atts[|atts| - 1]);
  }

  lemma MapUpdateAfterMerge<K, V>(m: map<K, V>, n: map<K, V>, k: K, v: V)
    ensures (m + n)[k := v] == m + n[k := v]
  {
  }

  lemma RestoredSnoc(rows: map<string, Row>, prefix: seq<string>, id: string)
    requires id in rows
    ensures Restored(rows, prefix + [id]) == Restored(rows, prefix)[id := FromRow(id, rows[id])]
    ensures RestoreWrites(rows, prefix + [id]) == RestoreWrites(rows, prefix) + [Write(id, FromRow(id, rows[id]))]
    ensures WantedRows(rows, prefix + [id]) == WantedRows(rows, prefix) + Wanted(rows[id].images) + Wanted(rows[id].videos)
    ensures NoneBlocks(rows, prefix + [id]) <==> NoneBlocks(rows, prefix) && !RowBlocksRestore(rows[id])
  {
    assert (prefix + [id])[..|prefix|] == prefix;
  }

  /** The bookkeeping of one download loop inside restore: `w` the names wanted so far,
      `wn` the names of the next attachment list, `d1` / `d2` the attempts before and in it. */
  lemma DownloadStep(l0: set<string>, w: set<string>, wn: set<string>, b: set<string>,
                     local1: set<string>, local2: set<string>, d1: seq<string>, d2: seq<string>, ok: bool)
    requires local1 == l0 + w * b && local2 >= local1
    requires forall k :: 0 <= k < |d1| ==> d1[k] !in l0 && d1[k] in w
    requires forall n :: n in w && n !in l0 ==> n in d1
    requires ok ==> local2 == local1 + wn * b
    requires forall k :: 0 <= k < |d2| ==> d2[k] !in local1 && d2[k] in wn
    requires ok ==> forall n :: n in wn && n !in local1 ==> n in d2
    ensures forall k :: 0 <= k < |d1 + d2| ==> (d1 + d2)[k] !in l0 && (d1 + d2)[k] in w + wn
    ensures ok ==> local2 == l0 + (w + wn) * b
    ensures ok ==> forall n :: n in w + wn && n !in l0 ==> n in d1 + d2
  {
    forall k | 0 <= k < |d1 + d2| ensures (d1 + d2)[k] !in l0 && (d1 + d2)[k] in w + wn {
      if k >= |d1| { assert (d1 + d2)[k] == d2[k - |d1|]; }
    }
  }

  lemma WantedGrows(init: seq<Attachment>, atts: seq<Attachment>)
    requires |atts| == |init| + 1 && atts[..|init|] == init
    ensures Wanted(init) <= Wanted(atts)
  {
  }

  lemma {:induction false} WantedPrefix(atts: seq<Attachment>, j: nat)
    requires j <= |atts|
    ensures Wanted(atts[..j]) <= Wanted(atts)
    decreases |atts| - j
  {
    if j < |atts| {
      WantedPrefix(atts, j + 1);
      assert atts[..j + 1][..j] == atts[..j];
      WantedGrows(atts[..j], atts[..j + 1]);
    } else {
      assert atts[..j] == atts;
    }
  }
}
