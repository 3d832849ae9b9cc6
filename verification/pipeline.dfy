/** The trigger itself: `main` and the helpers that fetch the partner files, store the
    results and clean up. `Trigger` states what one event does to the store and which
    notifications it sends; `HandleEvent` is proved to do exactly that. */
module Pipeline {
  import opened Strings
  import opened Tables
  import opened Routing
  import opened BlobStore
  import Coverage
  import MasterMerge

  /** The application settings the trigger reads from its environment. */
  type Env = map<string, string>

  const STORAGE_SETTING := "saunigiga_STORAGE"
  const DATA_CONTAINER_SETTING := "DATA_CONTAINER_NAME"
  const RAW_FOLDER_SETTING := "RAW_COVERAGE_FOLDER"
  const PROCESSED_FOLDER_SETTING := "PROCESSED_COVERAGE_FOLDER"
  const MASTER_FOLDER_SETTING := "MASTER_FILE_FOLDER"

  /** `os.environ[name]`. */
  function EnvGet(env: Env, name: string): (r: Result<string>)
    ensures r.Ok? <==> name in env
    ensures r.Ok? ==> r.value == env[name]
    ensures r.Err? ==> r.error == KeyError(name)
  {
    if name in env then Ok(env[name]) else Err(KeyError(name))
  }

  /** The partners whose files are reconciled, in the order they are fetched. */
  const PARTNERS: seq<string> := ["facebook", "itu"]

  // ---------------------------------------------------------------------------------
  // Fetching.
  // ---------------------------------------------------------------------------------

  /** `get_blob_storage_data(name, country)`: the first blob listed under the search
      target, with its path, or nothing when nothing is listed. */
  function Fetch(s: Store, name: string, country: string, convert: Converter): (r: Result<Option<Blob>>)
    requires ValidStore(s)
    ensures r.Ok? && r.value.Some? ==> WellFormed(r.value.value.data)
  {
    var t :- SearchTarget(name, country, convert);
    var names :- ListNames(s, t.container, t.prefix);
    if names == [] then Ok(None)
    else
      assert names[0] in names;
      Ok(Some(Blob(names[0], Read(s, t.container, names[0]).value)))
  }

  /** A fetched blob is the least-named blob under the search target, and it holds the
      table stored under that name. */
  lemma FetchFirst(s: Store, name: string, country: string, convert: Converter)
    requires ValidStore(s) && Fetch(s, name, country, convert).Ok? && Fetch(s, name, country, convert).value.Some?
    ensures SearchTarget(name, country, convert).Ok?
    ensures var t := SearchTarget(name, country, convert).value;
            var b := Fetch(s, name, country, convert).value.value;
      && t.container in s && b in s[t.container] && StartsWith(b.name, t.prefix)
      && Read(s, t.container, b.name) == Ok(b.data)
      && forall x :: x in s[t.container] && StartsWith(x.name, t.prefix) && x.name != b.name ==> Below(b.name, x.name)
  {
    var t := SearchTarget(name, country, convert).value;
    ListingFirstIsLeast(s[t.container], t.prefix);
  }

  /** Fetching fails exactly for a name without a search target or a missing container,
      and finds nothing exactly when no blob of the container is under the prefix. */
  lemma FetchNone(s: Store, name: string, country: string, convert: Converter)
    requires ValidStore(s)
    ensures Fetch(s, name, country, convert).Err? <==>
      SearchTarget(name, country, convert).Err? || SearchTarget(name, country, convert).value.container !in s
    ensures Fetch(s, name, country, convert) == Ok(None) <==>
      && SearchTarget(name, country, convert).Ok?
      && var t := SearchTarget(name, country, convert).value;
         t.container in s && forall x :: x in s[t.container] ==> !StartsWith(x.name, t.prefix)
  {
    var target := SearchTarget(name, country, convert);
    if target.Ok? && target.value.container in s {
      var t := target.value;
      var names := Listing(s[t.container], t.prefix);
      if names != [] {
        assert names[0] in names;
      }
    }
  }

  /** One entry of the partner dictionary: the partner and the file read for it. */
  datatype Found = Found(partner: string, blob: Blob)

  /** The loop of `get_partner_data` over the partners: it stops at the first failure or
      at the first partner without a file. */
  function Gather(s: Store, country: string, convert: Converter, ps: seq<string>): (r: Result<Option<seq<Found>>>)
    requires ValidStore(s)
    ensures r.Ok? && r.value.Some? ==> |r.value.value| == |ps|
    ensures r.Ok? && r.value.Some? ==> forall k :: 0 <= k < |ps| ==>
      r.value.value[k].partner == ps[k] && WellFormed(r.value.value[k].blob.data)
    decreases |ps|
  {
    if ps == [] then Ok(Some([]))
    else
      var b :- Fetch(s, ps[0], country, convert);
      if b.None? then Ok(None)
      else
        var rest :- Gather(s, country, convert, ps[1..]);
        if rest.None? then Ok(None) else Ok(Some([Found(ps[0], b.value)] + rest.value))
  }

  /** The entries gathered so far in front of the outcome of the rest of the loop. */
  function Prepend(found: seq<Found>, r: Result<Option<seq<Found>>>): Result<Option<seq<Found>>> {
    if r.Ok? && r.value.Some? then Ok(Some(found + r.value.value)) else r
  }

  /** What `get_partner_data` returns: the partner files (none when one is missing) and
      the master table (none when it is missing). */
  datatype PartnerData = PartnerData(found: Option<seq<Found>>, master: Option<Table>)

  function PartnerDataOf(s: Store, env: Env, country: string, convert: Converter, ps: seq<string>): (r: Result<PartnerData>)
    requires ValidStore(s)
    ensures r.Ok? && r.value.found.Some? ==> |r.value.found.value| == |ps|
    ensures r.Ok? && r.value.found.Some? ==> forall k :: 0 <= k < |ps| ==>
      r.value.found.value[k].partner == ps[k] && WellFormed(r.value.found.value[k].blob.data)
    ensures r.Ok? && r.value.master.Some? ==> WellFormed(r.value.master.value)
  {
    var found :- Gather(s, country, convert, ps);
    if found.None? then Ok(PartnerData(None, None))
    else
      var container :- EnvGet(env, DATA_CONTAINER_SETTING);
      var master :- Fetch(s, container, country, convert);
      Ok(PartnerData(found, if master.Some? then Some(master.value.data) else None))
  }

  /** A partner whose fetch found a file. */
  predicate Fetched(s: Store, name: string, country: string, convert: Converter)
    requires ValidStore(s)
  {
    Fetch(s, name, country, convert).Ok? && Fetch(s, name, country, convert).value.Some?
  }

  /** The partner files are all gathered exactly when every partner's fetch finds a file,
      and entry k is then partner k with the blob fetched for it. */
  lemma {:induction false} GatherContents(s: Store, country: string, convert: Converter, ps: seq<string>)
    requires ValidStore(s)
    ensures (Gather(s, country, convert, ps).Ok? && Gather(s, country, convert, ps).value.Some?) <==>
      forall k :: 0 <= k < |ps| ==> Fetched(s, ps[k], country, convert)
    ensures Gather(s, country, convert, ps).Ok? && Gather(s, country, convert, ps).value.Some? ==>
      forall k :: 0 <= k < |ps| ==>
        Gather(s, country, convert, ps).value.value[k] == Found(ps[k], Fetch(s, ps[k], country, convert).value.value)
    decreases |ps|
  {
    if ps != [] {
      var rest := ps[1..];
      GatherContents(s, country, convert, rest);
      assert forall k :: 1 <= k < |ps| ==> rest[k - 1] == ps[k];
    }
  }

  /** The loop gives no files when some partner's fetch finds none and the fetch of every
      partner before it found one. */
  lemma {:induction false} GatherNothing(s: Store, country: string, convert: Converter, ps: seq<string>, k: nat)
    requires ValidStore(s) && k < |ps| && Fetch(s, ps[k], country, convert) == Ok(None)
    requires forall j :: 0 <= j < k ==> Fetched(s, ps[j], country, convert)
    ensures Gather(s, country, convert, ps) == Ok(None)
    decreases k
  {
    if k > 0 {
      var rest := ps[1..];
      assert rest[k - 1] == ps[k];
      assert forall j :: 0 <= j < k - 1 ==> rest[j] == ps[j + 1];
      GatherNothing(s, country, convert, rest, k - 1);
      assert Fetched(s, ps[0], country, convert);
    }
  }

  /** And only then: when the loop gives no files, the first partner without a file is
      `k`, and every partner before it has one. */
  lemma {:induction false} GatherNothingAt(s: Store, country: string, convert: Converter, ps: seq<string>) returns (k: nat)
    requires ValidStore(s) && Gather(s, country, convert, ps) == Ok(None)
    ensures k < |ps| && Fetch(s, ps[k], country, convert) == Ok(None)
    ensures forall j :: 0 <= j < k ==> Fetched(s, ps[j], country, convert)
    decreases |ps|
  {
    if Fetch(s, ps[0], country, convert) == Ok(None) {
      k := 0;
    } else {
      var rest := ps[1..];
      var i := GatherNothingAt(s, country, convert, rest);
      k := i + 1;
      assert ps[k] == rest[i];
      assert forall j :: 1 <= j < k ==> ps[j] == rest[j - 1];
    }
  }

  /** What `get_partner_data` collects: no files (and no master) exactly when the loop
      finds none; otherwise the gathered files, and as master the table fetched from the
      data container. */
  lemma PartnerDataParts(s: Store, env: Env, country: string, convert: Converter, ps: seq<string>)
    requires ValidStore(s)
    ensures PartnerDataOf(s, env, country, convert, ps) == Ok(PartnerData(None, None)) <==>
      Gather(s, country, convert, ps) == Ok(None)
    ensures PartnerDataOf(s, env, country, convert, ps).Ok? && PartnerDataOf(s, env, country, convert, ps).value.found.Some? ==>
      && Gather(s, country, convert, ps) == Ok(PartnerDataOf(s, env, country, convert, ps).value.found)
      && DATA_CONTAINER_SETTING in env
      && var m := Fetch(s, env[DATA_CONTAINER_SETTING], country, convert);
         m.Ok? && PartnerDataOf(s, env, country, convert, ps).value.master == if m.value.Some? then Some(m.value.value.data) else None
  {
  }

  // ---------------------------------------------------------------------------------
  // Storing and deleting.
  // ---------------------------------------------------------------------------------

  /** The state of the store after a sequence of calls, and the error that stopped it. */
  datatype Effect = Effect(store: Store, failure: Option<Error>)

  datatype Upload = Upload(path: string, data: Table, overwrite: bool)

  /** Uploads one after the other into one container; the first failure stops the rest
      and keeps what was written before it. */
  function WriteAll(s: Store, container: string, ups: seq<Upload>): (r: Effect)
    requires ValidStore(s) && forall u :: u in ups ==> WellFormed(u.data)
    ensures ValidStore(r.store)
    decreases |ups|
  {
    if ups == [] then Effect(s, None)
    else match Write(s, container, ups[0].path, ups[0].data, ups[0].overwrite)
      case Err(e) => Effect(s, Some(e))
      case Ok(s') => WriteAll(s', container, ups[1..])
  }

  lemma WriteAllStep(s: Store, container: string, ups: seq<Upload>)
    requires ValidStore(s) && forall u :: u in ups ==> WellFormed(u.data)
    requires ups != []
    ensures Write(s, container, ups[0].path, ups[0].data, ups[0].overwrite).Err? ==>
      WriteAll(s, container, ups) == Effect(s, Some(Write(s, container, ups[0].path, ups[0].data, ups[0].overwrite).error))
    ensures Write(s, container, ups[0].path, ups[0].data, ups[0].overwrite).Ok? ==>
      WriteAll(s, container, ups) ==
      WriteAll(Write(s, container, ups[0].path, ups[0].data, ups[0].overwrite).value, container, ups[1..])
  {
  }

  /** The four uploads of `store_files`: the two raw snapshots, which may not replace an
      existing blob, then the coverage table and the new master, which may. The two
      snapshots never share a path, and every stored name passes the trigger's ".csv"
      guard. */
  function StoreUploads(raw: string, processed: string, masters: string, iso3: string, stamp: string,
                        fb: Table, itu: Table, coverage: Table, master: Table): (ups: seq<Upload>)
    ensures |ups| == 4 && ups[0].path != ups[1].path
    ensures forall u :: u in ups ==> IsCsvPath(u.path)
  {
    RawPathsDiffer(raw, iso3, stamp);
    [Upload(RawPath(raw, "facebook", iso3, stamp), fb, false),
     Upload(RawPath(raw, "itu", iso3, stamp), itu, false),
     Upload(MasterPath(processed, iso3), coverage, true),
     Upload(MasterPath(masters, iso3), master, true)]
  }

  /** `store_files`: the settings are read first, then the four uploads are made into the
      data container. */
  function Saved(s: Store, env: Env, country: string, convert: Converter, stamp: string,
                 fb: Table, itu: Table, coverage: Table, master: Table): (r: Effect)
    requires ValidStore(s)
    requires WellFormed(fb) && WellFormed(itu) && WellFormed(coverage) && WellFormed(master)
    ensures ValidStore(r.store)
  {
    if DATA_CONTAINER_SETTING !in env then Effect(s, Some(KeyError(DATA_CONTAINER_SETTING)))
    else if RAW_FOLDER_SETTING !in env then Effect(s, Some(KeyError(RAW_FOLDER_SETTING)))
    else if PROCESSED_FOLDER_SETTING !in env then Effect(s, Some(KeyError(PROCESSED_FOLDER_SETTING)))
    else if MASTER_FOLDER_SETTING !in env then Effect(s, Some(KeyError(MASTER_FOLDER_SETTING)))
    else
      var ups := StoreUploads(env[RAW_FOLDER_SETTING], env[PROCESSED_FOLDER_SETTING], env[MASTER_FOLDER_SETTING],
                              convert(country, Iso3), stamp, fb, itu, coverage, master);
      WriteAll(s, env[DATA_CONTAINER_SETTING], ups)
  }

  /** `delete_processed_partner_data`: each partner's file is deleted from the partner's
      container, in the order of the dictionary; the first failure stops the rest. */
  function EraseAll(s: Store, found: seq<Found>): (r: Effect)
    requires ValidStore(s)
    ensures ValidStore(r.store)
    decreases |found|
  {
    if found == [] then Effect(s, None)
    else match Erase(s, PartnerContainer(found[0].partner), found[0].blob.name)
      case Err(e) => Effect(s, Some(e))
      case Ok(s') => EraseAll(s', found[1..])
  }

  // ---------------------------------------------------------------------------------
  // What storing and deleting leave in the account.
  // ---------------------------------------------------------------------------------

  /** The table of the last upload to `path`, if any upload goes there. */
  function LastWrite(ups: seq<Upload>, path: string): (r: Option<Table>)
    ensures r.None? <==> forall u :: u in ups ==> u.path != path
    ensures r.Some? ==> exists u :: u in ups && u.path == path && u.data == r.value
  {
    if ups == [] then None
    else
      assert ups == [ups[0]] + ups[1..];
      match LastWrite(ups[1..], path)
      case Some(t) => Some(t)
      case None => if ups[0].path == path then Some(ups[0].data) else None
  }

  /** After uploads that all succeed, a path of the container reads what the last upload
      to it wrote, and every other blob of every container reads as before. */
  lemma {:induction false} WriteAllReads(s: Store, container: string, ups: seq<Upload>, c: string, p: string)
    requires ValidStore(s) && forall u :: u in ups ==> WellFormed(u.data)
    requires WriteAll(s, container, ups).failure.None?
    ensures Read(WriteAll(s, container, ups).store, c, p) ==
      if c == container && LastWrite(ups, p).Some? then Ok(LastWrite(ups, p).value) else Read(s, c, p)
    decreases |ups|
  {
    if ups != [] {
      var u := ups[0];
      WriteAllStep(s, container, ups);
      var s1 := Write(s, container, u.path, u.data, u.overwrite).value;
      assert forall x :: x in ups[1..] ==> x in ups;
      WriteAllReads(s1, container, ups[1..], c, p);
      WriteThenRead(s, container, u.path, u.data, u.overwrite, c, p);
    }
  }

  /** Uploads that all succeed keep every container and every blob that was there. */
  lemma {:induction false} WriteAllKeeps(s: Store, container: string, ups: seq<Upload>, c: string, p: string)
    requires ValidStore(s) && forall u :: u in ups ==> WellFormed(u.data)
    requires WriteAll(s, container, ups).failure.None?
    ensures c in s ==> c in WriteAll(s, container, ups).store
    ensures Read(s, c, p).Ok? ==> Read(WriteAll(s, container, ups).store, c, p).Ok?
    decreases |ups|
  {
    WriteAllReads(s, container, ups, c, p);
    if ups != [] {
      var u := ups[0];
      WriteAllStep(s, container, ups);
      var s1 := Write(s, container, u.path, u.data, u.overwrite).value;
      assert forall x :: x in ups[1..] ==> x in ups;
      WriteAllKeeps(s1, container, ups[1..], c, p);
    }
  }

  /** The settings `store_files` reads, present. */
  predicate HasStoreSettings(env: Env) {
    && DATA_CONTAINER_SETTING in env && RAW_FOLDER_SETTING in env
    && PROCESSED_FOLDER_SETTING in env && MASTER_FOLDER_SETTING in env
  }

  /** The four uploads of `store_files` under the settings of `env`. */
  function SaveUploads(env: Env, country: string, convert: Converter, stamp: string,
                       fb: Table, itu: Table, coverage: Table, master: Table): seq<Upload>
    requires HasStoreSettings(env)
  {
    StoreUploads(env[RAW_FOLDER_SETTING], env[PROCESSED_FOLDER_SETTING], env[MASTER_FOLDER_SETTING],
                 convert(country, Iso3), stamp, fb, itu, coverage, master)
  }

  /** The account accepts the uploads of `store_files`: the settings are there, the data
      container exists, and neither raw snapshot is stored yet (they may not be
      replaced). */
  predicate CanStore(s: Store, env: Env, country: string, convert: Converter, stamp: string) {
    && HasStoreSettings(env) && env[DATA_CONTAINER_SETTING] in s
    && var iso3 := convert(country, Iso3);
       && Read(s, env[DATA_CONTAINER_SETTING], RawPath(env[RAW_FOLDER_SETTING], "facebook", iso3, stamp)).Err?
       && Read(s, env[DATA_CONTAINER_SETTING], RawPath(env[RAW_FOLDER_SETTING], "itu", iso3, stamp)).Err?
  }

  /** `store_files` succeeds exactly when the account accepts its uploads, whatever the
      tables. */
  lemma SavedSucceeds(s: Store, env: Env, country: string, convert: Converter, stamp: string,
                      fb: Table, itu: Table, coverage: Table, master: Table)
    requires ValidStore(s)
    requires WellFormed(fb) && WellFormed(itu) && WellFormed(coverage) && WellFormed(master)
    ensures Saved(s, env, country, convert, stamp, fb, itu, coverage, master).failure.None? <==>
      CanStore(s, env, country, convert, stamp)
  {
    if HasStoreSettings(env) {
      var c, raw, iso3 := env[DATA_CONTAINER_SETTING], env[RAW_FOLDER_SETTING], convert(country, Iso3);
      var ups := SaveUploads(env, country, convert, stamp, fb, itu, coverage, master);
      var fbPath, ituPath := RawPath(raw, "facebook", iso3, stamp), RawPath(raw, "itu", iso3, stamp);
      WriteAllStep(s, c, ups);
      var w1 := Write(s, c, fbPath, fb, false);
      if w1.Ok? {
        var s1 := w1.value;
        RawPathsDiffer(raw, iso3, stamp);
        WriteThenRead(s, c, fbPath, fb, false, c, ituPath);
        WriteAllStep(s1, c, ups[1..]);
        var w2 := Write(s1, c, ituPath, itu, false);
        if w2.Ok? {
          assert ups[1..][1..] == ups[2..];
          OverwritesSucceed(w2.value, c, ups[2..]);
        }
      }
    }
  }

  /** Uploads that may replace what is there succeed whenever the container exists. */
  lemma {:induction false} OverwritesSucceed(s: Store, container: string, ups: seq<Upload>)
    requires ValidStore(s) && container in s
    requires forall u :: u in ups ==> WellFormed(u.data) && u.overwrite
    ensures WriteAll(s, container, ups).failure.None?
    decreases |ups|
  {
    if ups != [] {
      WriteAllStep(s, container, ups);
      var s1 := Write(s, container, ups[0].path, ups[0].data, true).value;
      assert container in s1;
      assert forall x :: x in ups[1..] ==> x in ups;
      OverwritesSucceed(s1, container, ups[1..]);
    }
  }

  /** Which of four uploads wrote a path last. */
  lemma LastOfFour(ups: seq<Upload>, p: string)
    requires |ups| == 4
    ensures LastWrite(ups, p) ==
      if p == ups[3].path then Some(ups[3].data)
      else if p == ups[2].path then Some(ups[2].data)
      else if p == ups[1].path then Some(ups[1].data)
      else if p == ups[0].path then Some(ups[0].data)
      else None
  {
    var t1 := ups[1..];
    var t2 := t1[1..];
    var t3 := t2[1..];
    assert t3[1..] == [] && t3[0] == ups[3] && t2[0] == ups[2] && t1[0] == ups[1];
    assert LastWrite(t3, p) == if p == ups[3].path then Some(ups[3].data) else None;
    assert LastWrite(t2, p) == if p == ups[3].path then Some(ups[3].data)
      else if p == ups[2].path then Some(ups[2].data) else None;
    assert LastWrite(t1, p) == if p == ups[3].path then Some(ups[3].data)
      else if p == ups[2].path then Some(ups[2].data)
      else if p == ups[1].path then Some(ups[1].data) else None;
  }

  /** After `store_files` succeeds, the new master table is at its master path, the
      coverage table at the processed path unless both folders are one, and each raw
      snapshot at its own path unless that is one of the later paths; the two snapshots
      never share a path. */
  lemma SavedFiles(s: Store, env: Env, country: string, convert: Converter, stamp: string,
                   fb: Table, itu: Table, coverage: Table, master: Table)
    requires ValidStore(s)
    requires WellFormed(fb) && WellFormed(itu) && WellFormed(coverage) && WellFormed(master)
    requires Saved(s, env, country, convert, stamp, fb, itu, coverage, master).failure.None?
    ensures HasStoreSettings(env)
    ensures var r := Saved(s, env, country, convert, stamp, fb, itu, coverage, master).store;
            var data := env[DATA_CONTAINER_SETTING];
            var ups := SaveUploads(env, country, convert, stamp, fb, itu, coverage, master);
      && ups[0].path != ups[1].path
      && Read(r, data, ups[3].path) == Ok(master)
      && (env[PROCESSED_FOLDER_SETTING] != env[MASTER_FOLDER_SETTING] ==> Read(r, data, ups[2].path) == Ok(coverage))
      && (ups[1].path != ups[2].path && ups[1].path != ups[3].path ==> Read(r, data, ups[1].path) == Ok(itu))
      && (ups[0].path != ups[2].path && ups[0].path != ups[3].path ==> Read(r, data, ups[0].path) == Ok(fb))
  {
    var data, iso3 := env[DATA_CONTAINER_SETTING], convert(country, Iso3);
    var processed, masters := env[PROCESSED_FOLDER_SETTING], env[MASTER_FOLDER_SETTING];
    var ups := SaveUploads(env, country, convert, stamp, fb, itu, coverage, master);
    RawPathsDiffer(env[RAW_FOLDER_SETTING], iso3, stamp);
    if processed != masters && MasterPath(processed, iso3) == MasterPath(masters, iso3) {
      MasterPathFolder(processed, masters, iso3);
    }
    assert forall u :: u in ups ==> WellFormed(u.data);
    LastOfFour(ups, ups[0].path);
    LastOfFour(ups, ups[1].path);
    LastOfFour(ups, ups[2].path);
    LastOfFour(ups, ups[3].path);
    WriteAllReads(s, data, ups, data, ups[0].path);
    WriteAllReads(s, data, ups, data, ups[1].path);
    WriteAllReads(s, data, ups, data, ups[2].path);
    WriteAllReads(s, data, ups, data, ups[3].path);
  }

  /** `store_files` changes no blob but the four it writes. */
  lemma SavedElsewhere(s: Store, env: Env, country: string, convert: Converter, stamp: string,
                       fb: Table, itu: Table, coverage: Table, master: Table, c: string, p: string)
    requires ValidStore(s)
    requires WellFormed(fb) && WellFormed(itu) && WellFormed(coverage) && WellFormed(master)
    requires Saved(s, env, country, convert, stamp, fb, itu, coverage, master).failure.None?
    ensures HasStoreSettings(env)
    ensures var ups := SaveUploads(env, country, convert, stamp, fb, itu, coverage, master);
      c != env[DATA_CONTAINER_SETTING] || (forall k :: 0 <= k < 4 ==> p != ups[k].path) ==>
        Read(Saved(s, env, country, convert, stamp, fb, itu, coverage, master).store, c, p) == Read(s, c, p)
  {
    var ups := SaveUploads(env, country, convert, stamp, fb, itu, coverage, master);
    assert forall u :: u in ups ==> WellFormed(u.data);
    LastOfFour(ups, p);
    WriteAllReads(s, env[DATA_CONTAINER_SETTING], ups, c, p);
  }

  /** `store_files` keeps every container and every blob that was there. */
  lemma SavedKeeps(s: Store, env: Env, country: string, convert: Converter, stamp: string,
                   fb: Table, itu: Table, coverage: Table, master: Table, c: string, p: string)
    requires ValidStore(s)
    requires WellFormed(fb) && WellFormed(itu) && WellFormed(coverage) && WellFormed(master)
    requires Saved(s, env, country, convert, stamp, fb, itu, coverage, master).failure.None?
    ensures Read(s, c, p).Ok? ==> Read(Saved(s, env, country, convert, stamp, fb, itu, coverage, master).store, c, p).Ok?
  {
    var ups := SaveUploads(env, country, convert, stamp, fb, itu, coverage, master);
    assert forall u :: u in ups ==> WellFormed(u.data);
    WriteAllKeeps(s, env[DATA_CONTAINER_SETTING], ups, c, p);
  }

  // ---------------------------------------------------------------------------------
  // Deletes.
  // ---------------------------------------------------------------------------------

  /** The container a partner's file is deleted from. */
  function EraseContainer(f: Found): string {
    PartnerContainer(f.partner)
  }

  /** The blob `c`/`p` is one of the partner files to delete. */
  predicate Erased(found: seq<Found>, c: string, p: string) {
    exists k :: 0 <= k < |found| && EraseContainer(found[k]) == c && found[k].blob.name == p
  }

  /** Every partner file is in its container, and no two of them are the same blob. */
  predicate CanErase(s: Store, found: seq<Found>) {
    && (forall k :: 0 <= k < |found| ==> Read(s, EraseContainer(found[k]), found[k].blob.name).Ok?)
    && (forall i, j :: 0 <= i < j < |found| ==>
          EraseContainer(found[i]) != EraseContainer(found[j]) || found[i].blob.name != found[j].blob.name)
  }

  /** `store_files` leaves every partner file it finds deletable. */
  lemma SavedKeepsErasable(s: Store, env: Env, country: string, convert: Converter, stamp: string,
                           fb: Table, itu: Table, coverage: Table, master: Table, found: seq<Found>)
    requires ValidStore(s)
    requires WellFormed(fb) && WellFormed(itu) && WellFormed(coverage) && WellFormed(master)
    requires Saved(s, env, country, convert, stamp, fb, itu, coverage, master).failure.None?
    requires CanErase(s, found)
    ensures CanErase(Saved(s, env, country, convert, stamp, fb, itu, coverage, master).store, found)
  {
    forall k | 0 <= k < |found|
      ensures Read(Saved(s, env, country, convert, stamp, fb, itu, coverage, master).store,
                   EraseContainer(found[k]), found[k].blob.name).Ok?
    {
      SavedKeeps(s, env, country, convert, stamp, fb, itu, coverage, master, EraseContainer(found[k]), found[k].blob.name);
    }
  }

  /** After the deletes succeed, each partner file is gone, and every other blob reads as
      before. */
  lemma {:induction false} EraseAllReads(s: Store, found: seq<Found>, c: string, p: string)
    requires ValidStore(s) && EraseAll(s, found).failure.None?
    ensures Read(EraseAll(s, found).store, c, p) ==
      if Erased(found, c, p) then Err(ResourceNotFound(c, p)) else Read(s, c, p)
    decreases |found|
  {
    if found != [] {
      var f := found[0];
      var s1 := Erase(s, EraseContainer(f), f.blob.name).value;
      var rest := found[1..];
      EraseAllReads(s1, rest, c, p);
      EraseThenRead(s, EraseContainer(f), f.blob.name, c, p);
      if Erased(rest, c, p) {
        var k :| 0 <= k < |rest| && EraseContainer(rest[k]) == c && rest[k].blob.name == p;
        assert found[k + 1] == rest[k];
      }
      if Erased(found, c, p) && !(EraseContainer(f) == c && f.blob.name == p) {
        var k :| 0 <= k < |found| && EraseContainer(found[k]) == c && found[k].blob.name == p;
        assert k != 0 && rest[k - 1] == found[k];
      }
    }
  }

  /** After the first delete, a later partner file reads as before unless it is the
      same blob. */
  lemma EraseFirstRead(s: Store, found: seq<Found>, k: nat)
    requires ValidStore(s) && 0 < k < |found|
    requires Erase(s, EraseContainer(found[0]), found[0].blob.name).Ok?
    ensures var s1 := Erase(s, EraseContainer(found[0]), found[0].blob.name).value;
      Read(s1, EraseContainer(found[k]), found[k].blob.name).Ok? <==>
        Read(s, EraseContainer(found[k]), found[k].blob.name).Ok? &&
        (EraseContainer(found[0]) != EraseContainer(found[k]) || found[0].blob.name != found[k].blob.name)
  {
    EraseThenRead(s, EraseContainer(found[0]), found[0].blob.name, EraseContainer(found[k]), found[k].blob.name);
  }

  /** Deletable files stay deletable after the first of them is deleted. */
  lemma CanEraseRest(s: Store, found: seq<Found>)
    requires ValidStore(s) && found != [] && CanErase(s, found)
    requires Erase(s, EraseContainer(found[0]), found[0].blob.name).Ok?
    ensures CanErase(Erase(s, EraseContainer(found[0]), found[0].blob.name).value, found[1..])
  {
    var s1 := Erase(s, EraseContainer(found[0]), found[0].blob.name).value;
    var rest := found[1..];
    forall k | 0 <= k < |rest| ensures Read(s1, EraseContainer(rest[k]), rest[k].blob.name).Ok? {
      EraseFirstRead(s, found, k + 1);
      assert found[k + 1] == rest[k];
    }
    forall i, j | 0 <= i < j < |rest|
      ensures EraseContainer(rest[i]) != EraseContainer(rest[j]) || rest[i].blob.name != rest[j].blob.name
    {
      assert found[i + 1] == rest[i] && found[j + 1] == rest[j];
    }
  }

  /** And conversely: when the first file is there and the rest are deletable after it
      goes, all of them were deletable. */
  lemma CanEraseFirst(s: Store, found: seq<Found>)
    requires ValidStore(s) && found != []
    requires Erase(s, EraseContainer(found[0]), found[0].blob.name).Ok?
    requires CanErase(Erase(s, EraseContainer(found[0]), found[0].blob.name).value, found[1..])
    ensures CanErase(s, found)
  {
    var rest := found[1..];
    forall k | 0 < k < |found|
      ensures Read(s, EraseContainer(found[k]), found[k].blob.name).Ok?
      ensures EraseContainer(found[0]) != EraseContainer(found[k]) || found[0].blob.name != found[k].blob.name
    {
      EraseFirstRead(s, found, k);
      assert rest[k - 1] == found[k];
    }
    forall i, j | 0 < i < j < |found|
      ensures EraseContainer(found[i]) != EraseContainer(found[j]) || found[i].blob.name != found[j].blob.name
    {
      assert rest[i - 1] == found[i] && rest[j - 1] == found[j];
    }
  }

  /** `delete_processed_partner_data` succeeds exactly when every partner file is there
      and no blob is named twice. */
  lemma {:induction false} EraseAllSucceeds(s: Store, found: seq<Found>)
    requires ValidStore(s)
    ensures EraseAll(s, found).failure.None? <==> CanErase(s, found)
    decreases |found|
  {
    if found != [] {
      var e := Erase(s, EraseContainer(found[0]), found[0].blob.name);
      if e.Ok? {
        EraseAllSucceeds(e.value, found[1..]);
        if CanErase(s, found) {
          CanEraseRest(s, found);
        }
        if CanErase(e.value, found[1..]) {
          CanEraseFirst(s, found);
        }
      } else {
        assert !Read(s, EraseContainer(found[0]), found[0].blob.name).Ok?;
      }
    }
  }
  /** Deleting the partner files succeeds exactly when they can be deleted, and then
      leaves each of them not found and every other blob as it was. */
  lemma EraseAllLeaves(s: Store, found: seq<Found>)
    requires ValidStore(s)
    ensures EraseAll(s, found).failure.None? <==> CanErase(s, found)
    ensures EraseAll(s, found).failure.None? ==> forall c, p ::
      Read(EraseAll(s, found).store, c, p) == (if Erased(found, c, p) then Err(ResourceNotFound(c, p)) else Read(s, c, p))
  {
    EraseAllSucceeds(s, found);
    if EraseAll(s, found).failure.None? {
      forall c, p
        ensures Read(EraseAll(s, found).store, c, p) == (if Erased(found, c, p) then Err(ResourceNotFound(c, p)) else Read(s, c, p))
      {
        EraseAllReads(s, found, c, p);
      }
    }
  }


  // ---------------------------------------------------------------------------------
  // One event.
  // ---------------------------------------------------------------------------------

  /** The blob event; its JSON body may lack the `blobUrl` entry. */
  datatype Event = Event(blobUrl: Option<string>)

  /** How `main` ends: it returns early on a path it does not act on, returns normally, or
      raises. */
  datatype Outcome = Ignored | Completed | Raised(error: Error)

  /** The outcome, the store afterwards and the notifications sent, in order. */
  datatype Run = Run(outcome: Outcome, store: Store, sent: seq<string>)

  /** A branch of `main`: the notification text it ends with (or the error it raises),
      the store afterwards and the notifications sent on the way. */
  datatype Staged = Staged(text: Result<string>, store: Store, sent: seq<string>)

  const MASTER_IS_NONE := AttributeError("'NoneType' object has no attribute 'merge'")

  /** The processing stages once both partner files are in hand. `found` is the partner
      dictionary in the order of `PARTNERS`, so its first entry is Facebook's. The
      stored raw snapshots are the partner frames as `process_coverage_data` left them,
      with their flag columns added. */
  function Stages(s: Store, env: Env, country: string, convert: Converter, stamp: string,
                  found: seq<Found>, master: Option<Table>, text: string): (r: Staged)
    requires ValidStore(s) && |found| == 2
    requires WellFormed(found[0].blob.data) && WellFormed(found[1].blob.data)
    requires master.Some? ==> WellFormed(master.value)
    ensures ValidStore(r.store)
  {
    var fb, itu := found[0].blob.data, found[1].blob.data;
    match Coverage.Reconcile(fb, itu)
    case Err(e) => Staged(Err(e), s, [PROCESSING_FAILED])
    case Ok(coverage) =>
      if master.None? then Staged(Err(MASTER_IS_NONE), s, [PROCESSING_FAILED])
      else match MasterMerge.MergeWithMaster(master.value, coverage)
        case Err(e) => Staged(Err(e), s, [PROCESSING_FAILED])
        case Ok(full) =>
          SaveStage(s, env, country, convert, stamp, Coverage.ApplyFlags(fb, Coverage.FB_FLAGS).table,
                    Coverage.ApplyFlags(itu, Coverage.ITU_FLAGS).table, coverage, full, found, text)
  }

  /** The last two stages: store the five files, then delete the partner files. */
  function SaveStage(s: Store, env: Env, country: string, convert: Converter, stamp: string,
                     fb: Table, itu: Table, coverage: Table, full: Table, found: seq<Found>, text: string): (r: Staged)
    requires ValidStore(s)
    requires WellFormed(fb) && WellFormed(itu) && WellFormed(coverage) && WellFormed(full)
    ensures ValidStore(r.store)
  {
    var saved := Saved(s, env, country, convert, stamp, fb, itu, coverage, full);
    if saved.failure.Some? then Staged(Err(saved.failure.value), saved.store, [SAVING_FAILED])
    else
      var erased := EraseAll(saved.store, found);
      if erased.failure.Some? then Staged(Err(erased.failure.value), erased.store, [DELETING_FAILED])
      else Staged(Ok(text + "\n" + PROCESSED_AND_SAVED), erased.store, [])
  }

  /** The "processed" branch of `main`. */
  function Processed(s: Store, env: Env, country: string, convert: Converter, stamp: string, text: string): (r: Staged)
    requires ValidStore(s)
    ensures ValidStore(r.store)
  {
    if STORAGE_SETTING !in env then Staged(Err(KeyError(STORAGE_SETTING)), s, [])
    else match PartnerDataOf(s, env, country, convert, PARTNERS)
      case Err(e) => Staged(Err(e), s, [FetchFailedText(country)])
      case Ok(d) =>
        if d.found.None? then Staged(Ok(text + "\n" + NOT_ENOUGH_DATA), s, [])
        else Stages(s, env, country, convert, stamp, d.found.value, d.master, text)
  }

  /** The dispatch of `main` on the folder of the file. */
  function Dispatch(s: Store, env: Env, convert: Converter, stamp: string, p: BlobPath): (r: Staged)
    requires ValidStore(s)
    ensures ValidStore(r.store)
  {
    var partner := PartnerName(p.container);
    var country := convert(CountryCode(p.file), NameShort);
    if p.folder == "unprocessed" then Staged(Ok(UnprocessedText(p.file, country, partner)), s, [])
    else if p.folder == "processed" then Processed(s, env, country, convert, stamp, ReceivedText(p.file, country, partner))
    else Staged(Err(UnboundLocalError("slack_text")), s, [])
  }

  /** `main(event)`: what one event does to the store and which notifications it sends. */
  function Trigger(event: Event, env: Env, convert: Converter, s: Store, stamp: string): (r: Run)
    requires ValidStore(s)
    ensures ValidStore(r.store)
  {
    if event.blobUrl.None? then Run(Raised(KeyError("blobUrl")), s, [])
    else match BlobFilePath(event.blobUrl.value)
      case Err(e) => Run(Raised(e), s, [])
      case Ok(path) =>
        if !IsCsvPath(path) then Run(Ignored, s, [])
        else match ParsePath(path)
          case Err(e) => Run(Raised(e), s, [])
          case Ok(p) =>
            var st := Dispatch(s, env, convert, stamp, p);
            match st.text
            case Ok(t) => Run(Completed, st.store, st.sent + [t])
            case Err(e) => Run(Raised(e), st.store, st.sent)
  }

  // ---------------------------------------------------------------------------------
  // The imperative trigger.
  // ---------------------------------------------------------------------------------

  /** `get_blob_storage_data`. */
  method GetBlobStorageData(svc: BlobService, slack: Notifier, name: string, country: string, convert: Converter)
    returns (r: Result<Option<Blob>>)
    requires svc.Valid()
    modifies slack
    ensures r == Fetch(svc.store, name, country, convert)
    ensures r.Ok? && r.value.Some? ==>
      && SearchTarget(name, country, convert).Ok?
      && var t := SearchTarget(name, country, convert).value;
         && t.container in svc.store && StartsWith(r.value.value.name, t.prefix)
         && Read(svc.store, t.container, r.value.value.name) == Ok(r.value.value.data)
         && forall x :: x in svc.store[t.container] && StartsWith(x.name, t.prefix) && x.name != r.value.value.name ==>
              Below(r.value.value.name, x.name)
    ensures r == Ok(None) <==>
      && SearchTarget(name, country, convert).Ok?
      && var t := SearchTarget(name, country, convert).value;
         t.container in svc.store && forall x :: x in svc.store[t.container] ==> !StartsWith(x.name, t.prefix)
    ensures slack.sent == old(slack.sent)
  {
    FetchNone(svc.store, name, country, convert);
    if Fetched(svc.store, name, country, convert) {
      FetchFirst(svc.store, name, country, convert);
    }
    var t :- SearchTarget(name, country, convert);
    var names :- svc.List(t.container, t.prefix);
    if names == [] {
      return Ok(None);
    }
    assert names[0] in names;
    // The blob was just listed, so its download succeeds and sends nothing.
    var data := svc.Download(t.container, names[0], slack);
    r := Ok(Some(Blob(names[0], data.value)));
  }

  /** The loop of `get_partner_data`: returns as soon as one partner has no file. */
  method GatherPartners(svc: BlobService, slack: Notifier, country: string, convert: Converter,
                        partners: seq<string>) returns (r: Result<Option<seq<Found>>>)
    requires svc.Valid()
    modifies slack
    ensures r == Gather(svc.store, country, convert, partners)
    ensures (r.Ok? && r.value.Some?) <==> forall k :: 0 <= k < |partners| ==> Fetched(svc.store, partners[k], country, convert)
    ensures r.Ok? && r.value.Some? ==> forall k :: 0 <= k < |partners| ==>
      r.value.value[k] == Found(partners[k], Fetch(svc.store, partners[k], country, convert).value.value)
    ensures slack.sent == old(slack.sent)
  {
    var found: seq<Found> := [];
    var k := 0;
    GatherFromStart(svc.store, country, convert, partners);
    while k < |partners|
      invariant 0 <= k <= |partners|
      invariant slack.sent == old(slack.sent)
      invariant Gather(svc.store, country, convert, partners) ==
                Prepend(found, Gather(svc.store, country, convert, partners[k..]))
    {
      GatherStep(svc.store, country, convert, partners[k..], found);
      assert partners[k..][0] == partners[k] && partners[k..][1..] == partners[k + 1..];
      var b := GetBlobStorageData(svc, slack, partners[k], country, convert);
      if b.Err? || b.value.None? {
        r := if b.Err? then Err(b.error) else Ok(None);
        GatherContents(svc.store, country, convert, partners);
        return;
      }
      found := found + [Found(partners[k], b.value.value)];
      k := k + 1;
    }
    assert partners[k..] == [] && found + [] == found;
    r := Ok(Some(found));
    GatherContents(svc.store, country, convert, partners);
  }

  lemma GatherFromStart(s: Store, country: string, convert: Converter, ps: seq<string>)
    requires ValidStore(s)
    ensures Gather(s, country, convert, ps) == Prepend([], Gather(s, country, convert, ps[0..]))
  {
    assert ps[0..] == ps;
    var g := Gather(s, country, convert, ps);
    if g.Ok? && g.value.Some? {
      assert [] + g.value.value == g.value.value;
    }
  }

  /** One turn of the loop: the entry for the first partner in front of the rest. */
  lemma GatherStep(s: Store, country: string, convert: Converter, ps: seq<string>, found: seq<Found>)
    requires ValidStore(s) && ps != []
    ensures Fetch(s, ps[0], country, convert).Err? ==>
      Prepend(found, Gather(s, country, convert, ps)) == Err(Fetch(s, ps[0], country, convert).error)
    ensures Fetch(s, ps[0], country, convert) == Ok(None) ==>
      Prepend(found, Gather(s, country, convert, ps)) == Ok(None)
    ensures Fetch(s, ps[0], country, convert).Ok? && Fetch(s, ps[0], country, convert).value.Some? ==>
      Prepend(found, Gather(s, country, convert, ps)) ==
      Prepend(found + [Found(ps[0], Fetch(s, ps[0], country, convert).value.value)], Gather(s, country, convert, ps[1..]))
  {
    var g := Gather(s, country, convert, ps[1..]);
    if g.Ok? && g.value.Some? {
      var f := Fetch(s, ps[0], country, convert);
      if f.Ok? && f.value.Some? {
        assert found + ([Found(ps[0], f.value.value)] + g.value.value) == found + [Found(ps[0], f.value.value)] + g.value.value;
      }
    }
  }

  /** `get_partner_data`. */
  method GetPartnerData(svc: BlobService, slack: Notifier, env: Env, country: string, convert: Converter,
                        partners: seq<string>) returns (r: Result<PartnerData>)
    requires svc.Valid()
    modifies slack
    ensures r == PartnerDataOf(svc.store, env, country, convert, partners)
    ensures r == Ok(PartnerData(None, None)) <==> Gather(svc.store, country, convert, partners) == Ok(None)
    ensures r.Ok? && r.value.found.Some? ==>
      && (forall k :: 0 <= k < |partners| ==>
            && Fetched(svc.store, partners[k], country, convert)
            && r.value.found.value[k] == Found(partners[k], Fetch(svc.store, partners[k], country, convert).value.value))
      && DATA_CONTAINER_SETTING in env
      && var m := Fetch(svc.store, env[DATA_CONTAINER_SETTING], country, convert);
         m.Ok? && r.value.master == if m.value.Some? then Some(m.value.value.data) else None
    ensures slack.sent == old(slack.sent)
  {
    PartnerDataParts(svc.store, env, country, convert, partners);
    GatherContents(svc.store, country, convert, partners);
    var found := GatherPartners(svc, slack, country, convert, partners);
    if found.Err? {
      return Err(found.error);
    }
    if found.value.None? {
      return Ok(PartnerData(None, None));
    }
    var container :- EnvGet(env, DATA_CONTAINER_SETTING);
    var master :- GetBlobStorageData(svc, slack, container, country, convert);
    r := Ok(PartnerData(found.value, if master.Some? then Some(master.value.data) else None));
  }

  /** `store_files`. */
  method StoreFiles(svc: BlobService, env: Env, country: string, convert: Converter, stamp: string,
                    fb: Table, itu: Table, coverage: Table, master: Table) returns (e: Option<Error>)
    requires svc.Valid()
    requires WellFormed(fb) && WellFormed(itu) && WellFormed(coverage) && WellFormed(master)
    modifies svc
    ensures svc.Valid()
    ensures Effect(svc.store, e) == Saved(old(svc.store), env, country, convert, stamp, fb, itu, coverage, master)
    ensures e.None? <==> CanStore(old(svc.store), env, country, convert, stamp)
    ensures e.None? ==>
      && HasStoreSettings(env)
      && var data := env[DATA_CONTAINER_SETTING];
         var ups := SaveUploads(env, country, convert, stamp, fb, itu, coverage, master);
         && ups[0].path != ups[1].path
         && Read(svc.store, data, ups[3].path) == Ok(master)
         && (env[PROCESSED_FOLDER_SETTING] != env[MASTER_FOLDER_SETTING] ==> Read(svc.store, data, ups[2].path) == Ok(coverage))
         && (ups[1].path != ups[2].path && ups[1].path != ups[3].path ==> Read(svc.store, data, ups[1].path) == Ok(itu))
         && (ups[0].path != ups[2].path && ups[0].path != ups[3].path ==> Read(svc.store, data, ups[0].path) == Ok(fb))
         && forall c, p :: (c != data || forall k :: 0 <= k < 4 ==> p != ups[k].path) ==>
              Read(svc.store, c, p) == Read(old(svc.store), c, p)
  {
    ghost var s0 := svc.store;
    SavedSucceeds(s0, env, country, convert, stamp, fb, itu, coverage, master);
    if Saved(s0, env, country, convert, stamp, fb, itu, coverage, master).failure.None? {
      SavedFiles(s0, env, country, convert, stamp, fb, itu, coverage, master);
      forall c, p {
        SavedElsewhere(s0, env, country, convert, stamp, fb, itu, coverage, master, c, p);
      }
    }
    if DATA_CONTAINER_SETTING !in env { return Some(KeyError(DATA_CONTAINER_SETTING)); }
    if RAW_FOLDER_SETTING !in env { return Some(KeyError(RAW_FOLDER_SETTING)); }
    if PROCESSED_FOLDER_SETTING !in env { return Some(KeyError(PROCESSED_FOLDER_SETTING)); }
    if MASTER_FOLDER_SETTING !in env { return Some(KeyError(MASTER_FOLDER_SETTING)); }
    var container := env[DATA_CONTAINER_SETTING];
    var raw, processed, masters := env[RAW_FOLDER_SETTING], env[PROCESSED_FOLDER_SETTING], env[MASTER_FOLDER_SETTING];
    var iso3 := convert(country, Iso3);
    var ups := StoreUploads(raw, processed, masters, iso3, stamp, fb, itu, coverage, master);
    assert ups[1..][1..] == ups[2..] && ups[2..][1..] == ups[3..] && ups[3..][1..] == [];
    WriteAllStep(svc.store, container, ups);
    e := svc.Upload(container, RawPath(raw, "facebook", iso3, stamp), fb, false);
    if e.Some? { return; }
    WriteAllStep(svc.store, container, ups[1..]);
    e := svc.Upload(container, RawPath(raw, "itu", iso3, stamp), itu, false);
    if e.Some? { return; }
    WriteAllStep(svc.store, container, ups[2..]);
    e := svc.Upload(container, MasterPath(processed, iso3), coverage, true);
    if e.Some? { return; }
    WriteAllStep(svc.store, container, ups[3..]);
    e := svc.Upload(container, MasterPath(masters, iso3), master, true);
  }

  /** `delete_processed_partner_data`. */
  method DeleteProcessedPartnerData(svc: BlobService, found: seq<Found>) returns (e: Option<Error>)
    requires svc.Valid()
    modifies svc
    ensures svc.Valid()
    ensures Effect(svc.store, e) == EraseAll(old(svc.store), found)
    ensures e.None? <==> CanErase(old(svc.store), found)
    ensures e.None? ==> forall c, p ::
      Read(svc.store, c, p) == (if Erased(found, c, p) then Err(ResourceNotFound(c, p)) else Read(old(svc.store), c, p))
  {
    ghost var s0 := svc.store;
    var k := 0;
    while k < |found|
      invariant 0 <= k <= |found|
      invariant svc.Valid()
      invariant EraseAll(s0, found) == EraseAll(svc.store, found[k..])
    {
      assert found[k..][0] == found[k] && found[k..][1..] == found[k + 1..];
      e := svc.Delete(PartnerContainer(found[k].partner), found[k].blob.name);
      if e.Some? {
        EraseAllLeaves(s0, found);
        return;
      }
      k := k + 1;
    }
    assert found[k..] == [];
    e := None;
    EraseAllLeaves(s0, found);
  }

  /** The processing stages of the "processed" branch, on frames of their own. */
  method RunStages(svc: BlobService, slack: Notifier, env: Env, country: string, convert: Converter, stamp: string,
                   found: seq<Found>, master: Option<Table>, text: string) returns (r: Result<string>)
    requires svc.Valid() && |found| == 2
    requires WellFormed(found[0].blob.data) && WellFormed(found[1].blob.data)
    requires master.Some? ==> WellFormed(master.value)
    modifies svc, slack
    ensures svc.Valid()
    ensures var st := Stages(old(svc.store), env, country, convert, stamp, found, master, text);
            r == st.text && svc.store == st.store && slack.sent == old(slack.sent) + st.sent
  {
    var facebook := new Frame(found[0].blob.data);
    var itu := new Frame(found[1].blob.data);
    var coverage := Coverage.ProcessCoverageData(facebook, itu);
    if coverage.Err? {
      slack.Send(PROCESSING_FAILED);
      return Err(coverage.error);
    }
    if master.None? {
      slack.Send(PROCESSING_FAILED);
      return Err(MASTER_IS_NONE);
    }
    var full := MasterMerge.MergeCoverageAndMaster(master.value, coverage.value);
    if full.Err? {
      slack.Send(PROCESSING_FAILED);
      return Err(full.error);
    }
    r := SaveAndDelete(svc, slack, env, country, convert, stamp, facebook.table, itu.table, coverage.value, full.value,
                       found, text);
  }

  /** Storing the results and deleting the partner files, each failure reported once. */
  method SaveAndDelete(svc: BlobService, slack: Notifier, env: Env, country: string, convert: Converter, stamp: string,
                       fb: Table, itu: Table, coverage: Table, full: Table, found: seq<Found>, text: string)
    returns (r: Result<string>)
    requires svc.Valid()
    requires WellFormed(fb) && WellFormed(itu) && WellFormed(coverage) && WellFormed(full)
    modifies svc, slack
    ensures svc.Valid()
    ensures var st := SaveStage(old(svc.store), env, country, convert, stamp, fb, itu, coverage, full, found, text);
            r == st.text && svc.store == st.store && slack.sent == old(slack.sent) + st.sent
  {
    var e := StoreFiles(svc, env, country, convert, stamp, fb, itu, coverage, full);
    if e.Some? {
      slack.Send(SAVING_FAILED);
      return Err(e.value);
    }
    e := DeleteProcessedPartnerData(svc, found);
    if e.Some? {
      slack.Send(DELETING_FAILED);
      return Err(e.value);
    }
    r := Ok(text + "\n" + PROCESSED_AND_SAVED);
  }

  /** The "processed" branch of `main`, up to the notification it ends with. */
  method RunProcessed(svc: BlobService, slack: Notifier, env: Env, country: string, convert: Converter, stamp: string,
                      text: string) returns (r: Result<string>)
    requires svc.Valid()
    modifies svc, slack
    ensures svc.Valid()
    ensures var st := Processed(old(svc.store), env, country, convert, stamp, text);
            r == st.text && svc.store == st.store && slack.sent == old(slack.sent) + st.sent
  {
    if STORAGE_SETTING !in env {
      return Err(KeyError(STORAGE_SETTING));
    }
    var d := GetPartnerData(svc, slack, env, country, convert, PARTNERS);
    if d.Err? {
      slack.Send(FetchFailedText(country));
      return Err(d.error);
    }
    if d.value.found.None? {
      return Ok(text + "\n" + NOT_ENOUGH_DATA);
    }
    r := RunStages(svc, slack, env, country, convert, stamp, d.value.found.value, d.value.master, text);
  }

  /** `main`. */
  method HandleEvent(event: Event, env: Env, convert: Converter, svc: BlobService, slack: Notifier, stamp: string)
    returns (outcome: Outcome)
    requires svc.Valid()
    modifies svc, slack
    ensures svc.Valid()
    ensures var run := Trigger(event, env, convert, old(svc.store), stamp);
            outcome == run.outcome && svc.store == run.store && slack.sent == old(slack.sent) + run.sent
  {
    if event.blobUrl.None? {
      return Raised(KeyError("blobUrl"));
    }
    var path := BlobFilePath(event.blobUrl.value);
    if path.Err? {
      return Raised(path.error);
    }
    if !IsCsvPath(path.value) {
      return Ignored;
    }
    var parsed := ParsePath(path.value);
    if parsed.Err? {
      return Raised(parsed.error);
    }
    var text := RunDispatch(svc, slack, env, convert, stamp, parsed.value);
    if text.Err? {
      return Raised(text.error);
    }
    slack.Send(text.value);
    outcome := Completed;
  }

  /** The `if`/`elif` of `main` on the folder of the file. */
  method RunDispatch(svc: BlobService, slack: Notifier, env: Env, convert: Converter, stamp: string, p: BlobPath)
    returns (text: Result<string>)
    requires svc.Valid()
    modifies svc, slack
    ensures svc.Valid()
    ensures var st := Dispatch(old(svc.store), env, convert, stamp, p);
            text == st.text && svc.store == st.store && slack.sent == old(slack.sent) + st.sent
  {
    var partner := PartnerName(p.container);
    var country := convert(CountryCode(p.file), NameShort);
    if p.folder == "unprocessed" {
      text := Ok(UnprocessedText(p.file, country, partner));
    } else if p.folder == "processed" {
      text := RunProcessed(svc, slack, env, country, convert, stamp, ReceivedText(p.file, country, partner));
    } else {
      text := Err(UnboundLocalError("slack_text"));
    }
  }
}
