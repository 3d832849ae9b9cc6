/** What one event does: which events are ignored, which raise, which notification each
    branch sends, and when the store changes. */
module PipelineFacts {
  import opened Strings
  import opened Tables
  import opened Routing
  import opened BlobStore
  import opened Pipeline
  import Coverage
  import MasterMerge
  import MasterFacts
  import CoverageFixture

  /** The container, folder and file of an event that names a csv file in three parts. */
  function EventPath(event: Event): Option<BlobPath> {
    if event.blobUrl.None? then None
    else match BlobFilePath(event.blobUrl.value)
      case Err(_) => None
      case Ok(path) => if IsCsvPath(path) && ParsePath(path).Ok? then Some(ParsePath(path).value) else None
  }

  /** The country named by a file. */
  function CountryOf(p: BlobPath, convert: Converter): string {
    convert(CountryCode(p.file), NameShort)
  }

  lemma DispatchNotify(s: Store, env: Env, convert: Converter, stamp: string, p: BlobPath)
    requires ValidStore(s)
    ensures var st := Dispatch(s, env, convert, stamp, p);
      && (st.text.Ok? ==> st.sent == []) && |st.sent| <= 1
      && (p.folder != "processed" ==> st.store == s && st.sent == [])
  {
    if p.folder == "processed" {
      var country := CountryOf(p, convert);
      var text := ReceivedText(p.file, country, PartnerName(p.container));
      if STORAGE_SETTING in env {
        var d := PartnerDataOf(s, env, country, convert, PARTNERS);
        if d.Ok? && d.value.found.Some? {
          StagesCompleted(s, env, country, convert, stamp, d.value.found.value, d.value.master, text);
        }
      }
    }
  }

  /** `main` sends at most one notification: exactly one, the branch's text, when it
      returns normally; none when it ignores the file, which leaves the store as it was. */
  lemma TriggerNotifiesOnce(event: Event, env: Env, convert: Converter, s: Store, stamp: string)
    requires ValidStore(s)
    ensures var run := Trigger(event, env, convert, s, stamp);
      && |run.sent| <= 1
      && (run.outcome == Completed <==>
            (|run.sent| == 1 && EventPath(event).Some? && Dispatch(s, env, convert, stamp, EventPath(event).value).text.Ok?))
      && (run.outcome == Ignored ==> run.sent == [] && run.store == s)
  {
    if event.blobUrl.Some? && BlobFilePath(event.blobUrl.value).Ok? {
      var path := BlobFilePath(event.blobUrl.value).value;
      if IsCsvPath(path) && ParsePath(path).Ok? {
        DispatchNotify(s, env, convert, stamp, ParsePath(path).value);
      }
    }
  }

  /** A file is ignored exactly when the URL names a path that is empty or does not end
      in ".csv". */
  lemma IgnoredExactly(event: Event, env: Env, convert: Converter, s: Store, stamp: string)
    requires ValidStore(s)
    ensures Trigger(event, env, convert, s, stamp).outcome == Ignored <==>
      event.blobUrl.Some? && BlobFilePath(event.blobUrl.value).Ok? && !IsCsvPath(BlobFilePath(event.blobUrl.value).value)
  {
  }

  /** A file in an "unprocessed" folder: one notification that the file was sent to the
      partner, and the store untouched. */
  lemma UnprocessedRun(event: Event, env: Env, convert: Converter, s: Store, stamp: string, p: BlobPath)
    requires ValidStore(s) && EventPath(event) == Some(p) && p.folder == "unprocessed"
    ensures Trigger(event, env, convert, s, stamp) ==
      Run(Completed, s, [UnprocessedText(p.file, CountryOf(p, convert), PartnerName(p.container))])
  {
  }

  /** A file in any folder but those two leaves the notification text unbound. */
  lemma OtherFolderRun(event: Event, env: Env, convert: Converter, s: Store, stamp: string, p: BlobPath)
    requires ValidStore(s) && EventPath(event) == Some(p) && p.folder != "unprocessed" && p.folder != "processed"
    ensures Trigger(event, env, convert, s, stamp) == Run(Raised(UnboundLocalError("slack_text")), s, [])
  {
  }

  /** A "processed" file while some partner has no file yet: one notification that there
      is not enough data, and the store untouched. */
  lemma NotEnoughDataRun(event: Event, env: Env, convert: Converter, s: Store, stamp: string, p: BlobPath)
    requires ValidStore(s) && EventPath(event) == Some(p) && p.folder == "processed" && STORAGE_SETTING in env
    requires PartnerDataOf(s, env, CountryOf(p, convert), convert, PARTNERS) == Ok(PartnerData(None, None))
    ensures Trigger(event, env, convert, s, stamp) ==
      Run(Completed, s, [ReceivedText(p.file, CountryOf(p, convert), PartnerName(p.container)) + "\n" + NOT_ENOUGH_DATA])
  {
  }

  /** The same run, from the store itself: partner k has no file with the country's
      prefix (the search is well-formed and its container exists) while every partner
      before it has one. */
  lemma MissingPartnerRun(event: Event, env: Env, convert: Converter, s: Store, stamp: string, p: BlobPath, k: nat)
    requires ValidStore(s) && EventPath(event) == Some(p) && p.folder == "processed" && STORAGE_SETTING in env
    requires k < |PARTNERS| && Fetch(s, PARTNERS[k], CountryOf(p, convert), convert) == Ok(None)
    requires forall j :: 0 <= j < k ==> Fetched(s, PARTNERS[j], CountryOf(p, convert), convert)
    ensures Trigger(event, env, convert, s, stamp) ==
      Run(Completed, s, [ReceivedText(p.file, CountryOf(p, convert), PartnerName(p.container)) + "\n" + NOT_ENOUGH_DATA])
  {
    GatherNothing(s, CountryOf(p, convert), convert, PARTNERS, k);
    PartnerDataParts(s, env, CountryOf(p, convert), convert, PARTNERS);
    NotEnoughDataRun(event, env, convert, s, stamp, p);
  }

  /** The partner files `get_partner_data` finds are stored in their partners'
      containers under the names found, so `delete_processed_partner_data` can delete
      them. */
  lemma FoundErasable(s: Store, env: Env, country: string, convert: Converter)
    requires ValidStore(s)
    requires PartnerDataOf(s, env, country, convert, PARTNERS).Ok?
    requires PartnerDataOf(s, env, country, convert, PARTNERS).value.found.Some?
    ensures var found := PartnerDataOf(s, env, country, convert, PARTNERS).value.found.value;
      && (forall k :: 0 <= k < |found| ==>
            Read(s, EraseContainer(found[k]), found[k].blob.name) == Ok(found[k].blob.data))
      && CanErase(s, found)
  {
    var found := PartnerDataOf(s, env, country, convert, PARTNERS).value.found.value;
    assert forall k :: 0 <= k < |found| ==>
        Read(s, EraseContainer(found[k]), found[k].blob.name) == Ok(found[k].blob.data) by {
      PartnerDataParts(s, env, country, convert, PARTNERS);
      GatherContents(s, country, convert, PARTNERS);
      forall k | 0 <= k < |found|
        ensures Read(s, EraseContainer(found[k]), found[k].blob.name) == Ok(found[k].blob.data)
      {
        FetchFirst(s, PARTNERS[k], country, convert);
        PartnerTargets(PARTNERS[k], country, convert);
      }
    }
    assert EraseContainer(found[0]) != EraseContainer(found[1]) by {
      assert EraseContainer(found[0])[|PARTNER_CONTAINER_PREFIX|] == 'f';
      assert EraseContainer(found[1])[|PARTNER_CONTAINER_PREFIX|] == 'i';
    }
  }

  /** Every stage succeeds: the coverage table is built, the master table is there and
      merges, the four files are stored and the partner files are deleted. */
  predicate StagesSucceed(s: Store, env: Env, country: string, convert: Converter, stamp: string,
                          found: seq<Found>, master: Option<Table>)
    requires ValidStore(s) && |found| == 2
    requires WellFormed(found[0].blob.data) && WellFormed(found[1].blob.data)
    requires master.Some? ==> WellFormed(master.value)
  {
    var fb, itu := found[0].blob.data, found[1].blob.data;
    && master.Some? && Coverage.Reconcile(fb, itu).Ok?
    && MasterMerge.MergeWithMaster(master.value, Coverage.Reconcile(fb, itu).value).Ok?
    && SavedStages(s, env, country, convert, stamp, found, master).failure.None?
    && EraseAll(SavedStages(s, env, country, convert, stamp, found, master).store, found).failure.None?
  }

  /** The store after the four files of a successful merge are written. */
  function SavedStages(s: Store, env: Env, country: string, convert: Converter, stamp: string,
                       found: seq<Found>, master: Option<Table>): Effect
    requires ValidStore(s) && |found| == 2
    requires WellFormed(found[0].blob.data) && WellFormed(found[1].blob.data)
    requires master.Some? && WellFormed(master.value)
    requires Coverage.Reconcile(found[0].blob.data, found[1].blob.data).Ok?
    requires MasterMerge.MergeWithMaster(master.value, Coverage.Reconcile(found[0].blob.data, found[1].blob.data).value).Ok?
  {
    var fb, itu := found[0].blob.data, found[1].blob.data;
    var coverage := Coverage.Reconcile(fb, itu).value;
    Saved(s, env, country, convert, stamp, Coverage.ApplyFlags(fb, Coverage.FB_FLAGS).table,
          Coverage.ApplyFlags(itu, Coverage.ITU_FLAGS).table, coverage,
          MasterMerge.MergeWithMaster(master.value, coverage).value)
  }

  /** The store after a successful run: the four files stored, then the partner files
      deleted. */
  function SuccessStore(s: Store, env: Env, country: string, convert: Converter, stamp: string,
                        found: seq<Found>, master: Option<Table>): Store
    requires ValidStore(s) && |found| == 2
    requires WellFormed(found[0].blob.data) && WellFormed(found[1].blob.data)
    requires master.Some? ==> WellFormed(master.value)
    requires StagesSucceed(s, env, country, convert, stamp, found, master)
  {
    EraseAll(SavedStages(s, env, country, convert, stamp, found, master).store, found).store
  }

  /** The stages end with the success text exactly when every stage succeeds; the store
      is then the one after storing the four files and deleting the partner files, and no
      failure notification was sent. A failing stage sends exactly one notification. */
  lemma StagesCompleted(s: Store, env: Env, country: string, convert: Converter, stamp: string,
                        found: seq<Found>, master: Option<Table>, text: string)
    requires ValidStore(s) && |found| == 2
    requires WellFormed(found[0].blob.data) && WellFormed(found[1].blob.data)
    requires master.Some? ==> WellFormed(master.value)
    ensures Stages(s, env, country, convert, stamp, found, master, text).text.Ok? <==>
            StagesSucceed(s, env, country, convert, stamp, found, master)
    ensures StagesSucceed(s, env, country, convert, stamp, found, master) ==>
      Stages(s, env, country, convert, stamp, found, master, text) ==
      Staged(Ok(text + "\n" + PROCESSED_AND_SAVED), SuccessStore(s, env, country, convert, stamp, found, master), [])
    ensures !StagesSucceed(s, env, country, convert, stamp, found, master) ==>
      |Stages(s, env, country, convert, stamp, found, master, text).sent| == 1
  {
  }

  /** A "processed" file that `main` handles without raising, with both partner files in
      hand: every stage succeeded, the store is the one after storing the four files and
      deleting the partner files, and one notification says so. */
  lemma ProcessedRun(event: Event, env: Env, convert: Converter, s: Store, stamp: string, p: BlobPath)
    requires ValidStore(s) && EventPath(event) == Some(p) && p.folder == "processed"
    requires Trigger(event, env, convert, s, stamp).outcome == Completed
    requires STORAGE_SETTING in env
    requires PartnerDataOf(s, env, CountryOf(p, convert), convert, PARTNERS).Ok?
    requires PartnerDataOf(s, env, CountryOf(p, convert), convert, PARTNERS).value.found.Some?
    ensures var d := PartnerDataOf(s, env, CountryOf(p, convert), convert, PARTNERS).value;
      && |d.found.value| == 2 && d.found.value[0].partner == "facebook" && d.found.value[1].partner == "itu"
      && (d.master.Some? ==> WellFormed(d.master.value))
      && WellFormed(d.found.value[0].blob.data) && WellFormed(d.found.value[1].blob.data)
      && StagesSucceed(s, env, CountryOf(p, convert), convert, stamp, d.found.value, d.master)
      && Trigger(event, env, convert, s, stamp) ==
         Run(Completed, SuccessStore(s, env, CountryOf(p, convert), convert, stamp, d.found.value, d.master),
             [ReceivedText(p.file, CountryOf(p, convert), PartnerName(p.container)) + "\n" + PROCESSED_AND_SAVED])
  {
    var country := CountryOf(p, convert);
    var text := ReceivedText(p.file, country, PartnerName(p.container));
    var d := PartnerDataOf(s, env, country, convert, PARTNERS).value;
    ProcessedTrigger(event, env, convert, s, stamp, p);
    StagesCompleted(s, env, country, convert, stamp, d.found.value, d.master, text);
  }

  /** `main` on a "processed" file with both partner files in hand ends as the stages do. */
  lemma ProcessedTrigger(event: Event, env: Env, convert: Converter, s: Store, stamp: string, p: BlobPath)
    requires ValidStore(s) && EventPath(event) == Some(p) && p.folder == "processed" && STORAGE_SETTING in env
    requires PartnerDataOf(s, env, CountryOf(p, convert), convert, PARTNERS).Ok?
    requires PartnerDataOf(s, env, CountryOf(p, convert), convert, PARTNERS).value.found.Some?
    ensures var d := PartnerDataOf(s, env, CountryOf(p, convert), convert, PARTNERS).value;
      && |d.found.value| == 2 && d.found.value[0].partner == "facebook" && d.found.value[1].partner == "itu"
      && (d.master.Some? ==> WellFormed(d.master.value))
      && WellFormed(d.found.value[0].blob.data) && WellFormed(d.found.value[1].blob.data)
      && var st := Stages(s, env, CountryOf(p, convert), convert, stamp, d.found.value, d.master,
                          ReceivedText(p.file, CountryOf(p, convert), PartnerName(p.container)));
         Trigger(event, env, convert, s, stamp) ==
           if st.text.Ok? then Run(Completed, st.store, st.sent + [st.text.value])
           else Run(Raised(st.text.error), st.store, st.sent)
  {
    DispatchProcessed(s, env, convert, stamp, p);
    TriggerDispatch(event, env, convert, s, stamp);
  }

  /** A "processed" file with both partner files in hand runs the stages on them. */
  lemma DispatchProcessed(s: Store, env: Env, convert: Converter, stamp: string, p: BlobPath)
    requires ValidStore(s) && p.folder == "processed" && STORAGE_SETTING in env
    requires PartnerDataOf(s, env, CountryOf(p, convert), convert, PARTNERS).Ok?
    requires PartnerDataOf(s, env, CountryOf(p, convert), convert, PARTNERS).value.found.Some?
    ensures var d := PartnerDataOf(s, env, CountryOf(p, convert), convert, PARTNERS).value;
      && |d.found.value| == 2 && d.found.value[0].partner == "facebook" && d.found.value[1].partner == "itu"
      && (d.master.Some? ==> WellFormed(d.master.value))
      && WellFormed(d.found.value[0].blob.data) && WellFormed(d.found.value[1].blob.data)
      && Dispatch(s, env, convert, stamp, p) ==
         Stages(s, env, CountryOf(p, convert), convert, stamp, d.found.value, d.master,
                ReceivedText(p.file, CountryOf(p, convert), PartnerName(p.container)))
  {
  }

  /** A parsed event runs the dispatch and ends with its text as the last notification, or
      raises its error. */
  lemma TriggerDispatch(event: Event, env: Env, convert: Converter, s: Store, stamp: string)
    requires ValidStore(s) && EventPath(event).Some?
    ensures var st := Dispatch(s, env, convert, stamp, EventPath(event).value);
      Trigger(event, env, convert, s, stamp) ==
        if st.text.Ok? then Run(Completed, st.store, st.sent + [st.text.value]) else Run(Raised(st.text.error), st.store, st.sent)
  {
    var path := BlobFilePath(event.blobUrl.value).value;
    assert IsCsvPath(path) && ParsePath(path).Ok?;
  }

  /** And conversely: a "processed" file whose partner files are all found and whose
      stages all succeed completes (ProcessedRun then says with what store and message). */
  lemma ProcessedRunCompletes(event: Event, env: Env, convert: Converter, s: Store, stamp: string, p: BlobPath)
    requires ValidStore(s) && EventPath(event) == Some(p) && p.folder == "processed"
    requires STORAGE_SETTING in env
    requires PartnerDataOf(s, env, CountryOf(p, convert), convert, PARTNERS).Ok?
    requires PartnerDataOf(s, env, CountryOf(p, convert), convert, PARTNERS).value.found.Some?
    requires var d := PartnerDataOf(s, env, CountryOf(p, convert), convert, PARTNERS).value;
      StagesSucceed(s, env, CountryOf(p, convert), convert, stamp, d.found.value, d.master)
    ensures Trigger(event, env, convert, s, stamp).outcome == Completed
  {
    var country := CountryOf(p, convert);
    var text := ReceivedText(p.file, country, PartnerName(p.container));
    var d := PartnerDataOf(s, env, country, convert, PARTNERS).value;
    DispatchProcessed(s, env, convert, stamp, p);
    StagesCompleted(s, env, country, convert, stamp, d.found.value, d.master, text);
    TriggerDispatch(event, env, convert, s, stamp);
  }

  /** Only a "processed" file with both partner files in hand changes the store. */
  lemma StoreChanges(event: Event, env: Env, convert: Converter, s: Store, stamp: string)
    requires ValidStore(s)
    requires Trigger(event, env, convert, s, stamp).store != s
    ensures EventPath(event).Some? && EventPath(event).value.folder == "processed" && STORAGE_SETTING in env
    ensures var p := EventPath(event).value;
      && PartnerDataOf(s, env, CountryOf(p, convert), convert, PARTNERS).Ok?
      && PartnerDataOf(s, env, CountryOf(p, convert), convert, PARTNERS).value.found.Some?
  {
    TriggerStore(event, env, convert, s, stamp);
    DispatchChanges(s, env, convert, stamp, EventPath(event).value);
  }

  /** Only the dispatch of a parsed event can change the store. */
  lemma TriggerStore(event: Event, env: Env, convert: Converter, s: Store, stamp: string)
    requires ValidStore(s)
    ensures EventPath(event).None? ==> Trigger(event, env, convert, s, stamp).store == s
    ensures EventPath(event).Some? ==>
      Trigger(event, env, convert, s, stamp).store == Dispatch(s, env, convert, stamp, EventPath(event).value).store
  {
    if EventPath(event).Some? {
      TriggerDispatch(event, env, convert, s, stamp);
    }
  }

  lemma DispatchChanges(s: Store, env: Env, convert: Converter, stamp: string, p: BlobPath)
    requires ValidStore(s)
    requires Dispatch(s, env, convert, stamp, p).store != s
    ensures p.folder == "processed" && STORAGE_SETTING in env
    ensures && PartnerDataOf(s, env, CountryOf(p, convert), convert, PARTNERS).Ok?
            && PartnerDataOf(s, env, CountryOf(p, convert), convert, PARTNERS).value.found.Some?
  {
  }

  // ---------------------------------------------------------------------------------
  // The events of the trigger tests.
  // ---------------------------------------------------------------------------------

  const TEST_ACCOUNT := "saunigiga"
  /** The blob URL of a test event: the storage account, then the file's container,
      folder and name. */
  function TestUrl(folder: string, file: string): string {
    BlobUrl(TEST_ACCOUNT, JoinPath(BlobPath("coverage-data-facebook", folder, file)))
  }

  lemma FacebookPartner(partner: string)
    requires partner == "facebook"
    ensures PartnerName(PartnerContainer(partner)) == partner
  {
    assert !Contains(partner, PARTNER_CONTAINER_PREFIX) by {
      assert |partner| < |PARTNER_CONTAINER_PREFIX|;
    }
    PartnerOfContainer(partner);
  }

  lemma FacebookTitle(partner: string)
    requires partner == "facebook"
    ensures Title(partner) == "Facebook"
  {
    TitleAt(partner, 0);
    forall i | 1 <= i < |partner| ensures Title(partner)[i] == partner[i] {
      TitleAt(partner, i);
    }
  }

  /** The event of a blob whose URL is built from a csv file's three parts. */
  lemma EventOfUrl(account: string, p: BlobPath)
    requires '/' !in account && '/' !in p.container && '/' !in p.folder && '/' !in p.file
    requires '\n' !in p.container && '\n' !in p.folder && '\n' !in p.file
    requires EndsWith(p.file, ".csv")
    ensures EventPath(Event(Some(BlobUrl(account, JoinPath(p))))) == Some(p)
  {
    var path := JoinPath(p);
    BlobFilePathOfUrl(account, path);
    JoinThenParse(p);
    var head := p.container + "/" + p.folder + "/";
    assert path == head + p.file;
    assert path[|path| - 4..] == p.file[|p.file| - 4..];
  }

  /** The parts of the test files hold no slash and no newline; the names are csv names
      that start with Rwanda's code. */
  lemma TestContainer(container: string)
    requires container == "coverage-data-facebook"
    ensures '/' !in container && '\n' !in container && '/' !in TEST_ACCOUNT
  {
  }

  lemma TestFolder(folder: string)
    requires folder == "unprocessed" || folder == "processed"
    ensures '/' !in folder && '\n' !in folder
  {
  }

  /** A name made of Rwanda's code, a part that does not start with a letter and the csv
      extension is a csv name whose country code is Rwanda's. */
  lemma RwandaCsv(file: string, middle: string)
    requires file == "RWA" + middle + ".csv"
    requires middle == [] || !IsLetter(middle[0])
    ensures EndsWith(file, ".csv") && CountryCode(file) == "RWA"
  {
    assert file == "RWA" + (middle + ".csv");
    LeadingLettersOf("RWA", middle + ".csv");
    assert file[|file| - 4..] == ".csv";
  }

  lemma UnprocessedNameClean(file: string)
    requires file == "RWA_school_geolocation_unprocessed.csv"
    ensures '/' !in file && '\n' !in file
  {
  }

  lemma UnprocessedNameParts(file: string)
    requires file == "RWA_school_geolocation_unprocessed.csv"
    ensures file == "RWA" + "_school_geolocation_unprocessed" + ".csv"
  {
  }

  lemma UnprocessedTestFile(file: string)
    requires file == "RWA_school_geolocation_unprocessed.csv"
    ensures '/' !in file && '\n' !in file && EndsWith(file, ".csv") && CountryCode(file) == "RWA"
  {
    UnprocessedNameClean(file);
    UnprocessedNameParts(file);
    RwandaCsv(file, "_school_geolocation_unprocessed");
  }

  lemma ProcessedTestFile(file: string)
    requires file == "RWA.csv"
    ensures '/' !in file && '\n' !in file && EndsWith(file, ".csv") && CountryCode(file) == "RWA"
  {
    RwandaCsv(file, "");
  }

  /** The event of `partner_event_unprocessed` names Rwanda's unprocessed file. */
  lemma UnprocessedTestEvent(event: Event, p: BlobPath)
    requires p == BlobPath("coverage-data-facebook", "unprocessed", "RWA_school_geolocation_unprocessed.csv")
    requires event == Event(Some(TestUrl("unprocessed", "RWA_school_geolocation_unprocessed.csv")))
    ensures EventPath(event) == Some(p) && CountryCode(p.file) == "RWA"
  {
    TestContainer(p.container);
    TestFolder(p.folder);
    UnprocessedTestFile(p.file);
    EventOfUrl(TEST_ACCOUNT, p);
  }

  /** The event of `partner_event_processed` names Rwanda's processed file. */
  lemma ProcessedTestEvent(event: Event, p: BlobPath)
    requires p == BlobPath("coverage-data-facebook", "processed", "RWA.csv")
    requires event == Event(Some(TestUrl("processed", "RWA.csv")))
    ensures EventPath(event) == Some(p) && CountryCode(p.file) == "RWA"
  {
    TestContainer(p.container);
    TestFolder(p.folder);
    ProcessedTestFile(p.file);
    EventOfUrl(TEST_ACCOUNT, p);
  }

  /** The names the notifications of the test events are built from. */
  lemma TestNames(p: BlobPath, convert: Converter)
    requires p.container == "coverage-data-facebook" && CountryCode(p.file) == "RWA"
    requires convert("RWA", NameShort) == "Rwanda"
    ensures CountryOf(p, convert) == "Rwanda"
    ensures PartnerName(p.container) == "facebook" && Title(PartnerName(p.container)) == "Facebook"
  {
    assert p.container == PartnerContainer("facebook");
    FacebookPartner("facebook");
    FacebookTitle("facebook");
  }

  /** `test_file_added_to_unprocessed_folder`: one notification that Rwanda's file was
      sent to Facebook, and the store untouched. */
  lemma UnprocessedTestRun(event: Event, env: Env, convert: Converter, s: Store, stamp: string)
    requires ValidStore(s) && convert("RWA", NameShort) == "Rwanda"
    requires event == Event(Some(TestUrl("unprocessed", "RWA_school_geolocation_unprocessed.csv")))
    ensures Trigger(event, env, convert, s, stamp) ==
      Run(Completed, s, ["File " + "RWA_school_geolocation_unprocessed.csv" + " for " + "Rwanda"
                         + " has been sent to " + "Facebook"])
  {
    var p := BlobPath("coverage-data-facebook", "unprocessed", "RWA_school_geolocation_unprocessed.csv");
    UnprocessedTestEvent(event, p);
    TestNames(p, convert);
    UnprocessedRun(event, env, convert, s, stamp, p);
  }

  /** `test_file_added_to_processed_folder_one_partner_available`: with a partner file
      missing, one notification that Facebook's file was received and that there is not
      enough data, and the store untouched. */
  lemma NotEnoughDataTestRun(event: Event, env: Env, convert: Converter, s: Store, stamp: string)
    requires ValidStore(s) && convert("RWA", NameShort) == "Rwanda" && STORAGE_SETTING in env
    requires event == Event(Some(TestUrl("processed", "RWA.csv")))
    requires PartnerDataOf(s, env, "Rwanda", convert, PARTNERS) == Ok(PartnerData(None, None))
    ensures Trigger(event, env, convert, s, stamp) ==
      Run(Completed, s, ["Coverage file " + "RWA.csv" + " for " + "Rwanda" + " has been received from " + "Facebook"
                         + "\n" + "Coverage files not processed. Not enough partner data. At least 2 sources required\n"])
  {
    var p := BlobPath("coverage-data-facebook", "processed", "RWA.csv");
    ProcessedTestEvent(event, p);
    TestNames(p, convert);
    NotEnoughDataRun(event, env, convert, s, stamp, p);
  }

  /** What the mocked `get_partner_data` of `test_file_added_to_processed_all_files_available`
      hands over: the Facebook and ITU fixture tables, under whatever names their files
      were found, and the master fixture. */
  function TestPartnerData(fbName: string, ituName: string): PartnerData {
    PartnerData(Some([Found("facebook", Blob(fbName, CoverageFixture.FacebookFixture(CoverageFixture.INDENT))),
                      Found("itu", Blob(ituName, CoverageFixture.ItuFixture(CoverageFixture.INDENT)))]),
                Some(CoverageFixture.MasterFixture(CoverageFixture.INDENT)))
  }

  /** On the fixtures every stage succeeds once the account accepts the uploads: the
      coverage table is built from the fixture columns, it merges with the master
      fixture, the four files are stored and the found files deleted. */
  lemma TestStagesSucceed(s: Store, env: Env, convert: Converter, stamp: string, fbName: string, ituName: string)
    requires ValidStore(s)
    requires PartnerDataOf(s, env, "Rwanda", convert, PARTNERS) == Ok(TestPartnerData(fbName, ituName))
    requires CanStore(s, env, "Rwanda", convert, stamp)
    ensures var d := TestPartnerData(fbName, ituName);
      StagesSucceed(s, env, "Rwanda", convert, stamp, d.found.value, d.master)
  {
    var d := TestPartnerData(fbName, ituName);
    var found, master := d.found.value, d.master.value;
    var fb, itu := found[0].blob.data, found[1].blob.data;
    CoverageFixture.FixtureCoverage(CoverageFixture.INDENT, fb, itu);
    CoverageFixture.FixtureCoverageSchools(CoverageFixture.INDENT, fb, itu);
    var coverage := Coverage.Reconcile(fb, itu).value;
    CoverageFixture.MasterFixtureRows(CoverageFixture.INDENT, master, coverage);
    var full := MasterMerge.MergeWithMaster(master, coverage).value;
    var flaggedFb, flaggedItu := Coverage.ApplyFlags(fb, Coverage.FB_FLAGS).table, Coverage.ApplyFlags(itu, Coverage.ITU_FLAGS).table;
    SavedSucceeds(s, env, "Rwanda", convert, stamp, flaggedFb, flaggedItu, coverage, full);
    FoundErasable(s, env, "Rwanda", convert);
    SavedKeepsErasable(s, env, "Rwanda", convert, stamp, flaggedFb, flaggedItu, coverage, full, found);
    var saved := SavedStages(s, env, "Rwanda", convert, stamp, found, d.master);
    EraseAllSucceeds(saved.store, found);
  }

  /** `test_file_added_to_processed_all_files_available`: with the fixtures handed over
      and an account that accepts the uploads (the test mocks `store_files` and
      `delete_processed_partner_data` to succeed), `main` completes and sends one
      notification that Facebook's file was received and the data processed and saved. */
  lemma ProcessedTestRun(event: Event, env: Env, convert: Converter, s: Store, stamp: string, fbName: string, ituName: string)
    requires ValidStore(s) && convert("RWA", NameShort) == "Rwanda" && STORAGE_SETTING in env
    requires event == Event(Some(TestUrl("processed", "RWA.csv")))
    requires PartnerDataOf(s, env, "Rwanda", convert, PARTNERS) == Ok(TestPartnerData(fbName, ituName))
    requires CanStore(s, env, "Rwanda", convert, stamp)
    ensures Trigger(event, env, convert, s, stamp).outcome == Completed
    ensures Trigger(event, env, convert, s, stamp).sent ==
      ["Coverage file " + "RWA.csv" + " for " + "Rwanda" + " has been received from " + "Facebook"
       + "\n" + "Coverage data has been processed and saved"]
  {
    var p := BlobPath("coverage-data-facebook", "processed", "RWA.csv");
    ProcessedTestEvent(event, p);
    TestNames(p, convert);
    TestStagesSucceed(s, env, convert, stamp, fbName, ituName);
    ProcessedRunCompletes(event, env, convert, s, stamp, p);
    ProcessedRun(event, env, convert, s, stamp, p);
  }
}
