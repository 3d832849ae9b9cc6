/** The naming conventions of the trigger: how an event's blob URL becomes a container,
    folder and file, how the partner and the country are read off them, where each
    partner's files are searched for, where the results are stored, and the texts of the
    notifications. */
module Routing {
  import opened Strings
  import opened Tables

  // ---------------------------------------------------------------------------------
  // The blob path of an event: `re.search(r"(?<=(blob.core.windows.net\/))(.*)", url)[0]`.
  // ---------------------------------------------------------------------------------

  /** The look-behind of the pattern; its dots are unescaped, so each matches any
      character but a newline. */
  const HOST_PATTERN := "blob.core.windows.net/"

  predicate PatternCharMatches(pc: char, c: char) {
    if pc == '.' then c != '\n' else c == pc
  }

  /** The look-behind holds at position `p` of `s`. */
  predicate LookbehindAt(s: string, p: nat) {
    && |HOST_PATTERN| <= p <= |s|
    && forall k :: 0 <= k < |HOST_PATTERN| ==> PatternCharMatches(HOST_PATTERN[k], s[p - |HOST_PATTERN| + k])
  }

  /** The first position from `p` on where the look-behind holds. */
  function SearchFrom(s: string, p: nat): (r: Option<nat>)
    requires p <= |s|
    ensures r.Some? ==> p <= r.value <= |s| && LookbehindAt(s, r.value)
    ensures r.Some? ==> forall q :: p <= q < r.value ==> !LookbehindAt(s, q)
    ensures r.None? ==> forall q :: p <= q <= |s| ==> !LookbehindAt(s, q)
    decreases |s| - p
  {
    if LookbehindAt(s, p) then Some(p)
    else if p == |s| then None
    else SearchFrom(s, p + 1)
  }

  /** Where `.*` stops: the next newline from `p` on, or the end. */
  function LineEnd(s: string, p: nat): (e: nat)
    requires p <= |s|
    ensures p <= e <= |s| && (e == |s| || s[e] == '\n')
    ensures forall k :: p <= k < e ==> s[k] != '\n'
    decreases |s| - p
  {
    if p == |s| || s[p] == '\n' then p else LineEnd(s, p + 1)
  }

  /** The match of the search: everything after the first look-behind position up to the
      end of the line; no match at all makes `[0]` raise a `TypeError` on `None`. */
  function BlobFilePath(url: string): (r: Result<string>)
    ensures r.Err? <==> forall q :: 0 <= q <= |url| ==> !LookbehindAt(url, q)
  {
    match SearchFrom(url, 0)
    case None => Err(TypeError("'NoneType' object is not subscriptable"))
    case Some(p) => Ok(url[p..LineEnd(url, p)])
  }

  /** The URL of a blob of a storage account. */
  function BlobUrl(account: string, path: string): string {
    "https://" + account + ".blob.core.windows.net/" + path
  }

  /** The path of a blob is read back from its URL, whatever the account's name, as long
      as it holds no slash, and the path no newline. */
  lemma BlobFilePathOfUrl(account: string, path: string)
    requires '/' !in account && '\n' !in path
    ensures BlobFilePath(BlobUrl(account, path)) == Ok(path)
  {
    var url := BlobUrl(account, path);
    var head := "https://" + account + ".blob.core.windows.net";
    var start := |head| + 1;
    assert url == head + "/" + path;
    assert url[start - |HOST_PATTERN|..start] == HOST_PATTERN;
    assert LookbehindAt(url, start);
    forall q | 0 <= q < start ensures !LookbehindAt(url, q) {
      if |HOST_PATTERN| <= q {
        HeadNoSlash(account, q - 1);
        assert url[q - 1] == head[q - 1];
        SlashNeeded(url, q);
      }
    }
    FirstMatch(url, start);
    assert url[start..] == path;
    NoNewlineToEnd(url, start);
    assert url[start..LineEnd(url, start)] == path;
  }

  /** The host part of a blob URL has its only slashes in the scheme. */
  lemma HeadNoSlash(account: string, k: nat)
    requires '/' !in account
    requires 8 <= k < |"https://" + account + ".blob.core.windows.net"|
    ensures ("https://" + account + ".blob.core.windows.net")[k] != '/'
  {
    var head := "https://" + account + ".blob.core.windows.net";
    if k < 8 + |account| {
      assert head[k] == account[k - 8];
    } else {
      assert head[k] == ".blob.core.windows.net"[k - 8 - |account|];
    }
  }

  /** The look-behind ends in a slash. */
  lemma SlashNeeded(s: string, q: nat)
    requires |HOST_PATTERN| <= q <= |s| && s[q - 1] != '/'
    ensures !LookbehindAt(s, q)
  {
    assert HOST_PATTERN[|HOST_PATTERN| - 1] == '/';
    assert !PatternCharMatches(HOST_PATTERN[|HOST_PATTERN| - 1], s[q - |HOST_PATTERN| + (|HOST_PATTERN| - 1)]);
  }

  /** The search finds the first position where the look-behind holds. */
  lemma FirstMatch(s: string, start: nat)
    requires start <= |s| && LookbehindAt(s, start)
    requires forall q :: 0 <= q < start ==> !LookbehindAt(s, q)
    ensures SearchFrom(s, 0) == Some(start)
    ensures BlobFilePath(s) == Ok(s[start..LineEnd(s, start)])
  {
  }

  /** With no newline after `p`, `.*` runs to the end. */
  lemma NoNewlineToEnd(s: string, p: nat)
    requires p <= |s| && '\n' !in s[p..]
    ensures LineEnd(s, p) == |s|
  {
    assert forall k :: p <= k < |s| ==> s[k] == s[p..][k - p];
  }

  // ---------------------------------------------------------------------------------
  // Container, folder, file; partner and country.
  // ---------------------------------------------------------------------------------

  /** The guard of the trigger: an empty path or one that does not end in ".csv" is not
      a file to act on. The emptiness test adds nothing, since a path ending in ".csv" is
      never empty. */
  predicate IsCsvPath(path: string)
    ensures IsCsvPath(path) <==> EndsWith(path, ".csv")
  {
    path != [] && EndsWith(path, ".csv")
  }

  datatype BlobPath = BlobPath(container: string, folder: string, file: string)

  /** `container_name, folder_name, file_name = path.split('/')`: anything but exactly
      three parts fails to unpack. */
  function ParsePath(path: string): (r: Result<BlobPath>)
    ensures r.Ok? <==> |Split(path, '/')| == 3
    ensures r.Err? ==> r.error.ValueError?
  {
    var parts := Split(path, '/');
    if |parts| < 3 then Err(ValueError("not enough values to unpack (expected 3)"))
    else if |parts| > 3 then Err(ValueError("too many values to unpack (expected 3)"))
    else Ok(BlobPath(parts[0], parts[1], parts[2]))
  }

  function JoinPath(p: BlobPath): string {
    p.container + "/" + p.folder + "/" + p.file
  }

  /** Parsing a path loses nothing: the three parts, joined, give it back. */
  lemma ParseThenJoin(path: string)
    requires ParsePath(path).Ok?
    ensures JoinPath(ParsePath(path).value) == path
    ensures var p := ParsePath(path).value; '/' !in p.container && '/' !in p.folder && '/' !in p.file
  {
    var parts := Split(path, '/');
    SplitJoin(path, '/');
    JoinThree(parts, '/');
    assert '/' !in parts[0] && '/' !in parts[1] && '/' !in parts[2];
  }

  lemma JoinThree(parts: seq<string>, sep: char)
    requires |parts| == 3
    ensures Join(parts, sep) == parts[0] + [sep] + parts[1] + [sep] + parts[2]
  {
    assert parts[1..][1..] == [parts[2]];
    assert Join(parts[1..], sep) == parts[1] + [sep] + parts[2];
  }

  /** A path made of three slash-free parts is parsed back into them. */
  lemma JoinThenParse(p: BlobPath)
    requires '/' !in p.container && '/' !in p.folder && '/' !in p.file
    ensures ParsePath(JoinPath(p)) == Ok(p)
  {
    var parts := [p.container, p.folder, p.file];
    assert Join(parts[1..], '/') == p.folder + ['/'] + p.file by {
      assert parts[1..][1..] == [p.file];
    }
    assert Join(parts, '/') == JoinPath(p);
    JoinSplit(parts, '/');
  }

  const PARTNER_CONTAINER_PREFIX := "coverage-data-"

  /** `container_name.replace('coverage-data-', '')`: a name without the prefix is left as
      it is, and `coverage-data-` followed by a prefix-free rest gives that rest. */
  function PartnerName(container: string): (partner: string)
    ensures !Contains(container, PARTNER_CONTAINER_PREFIX) ==> partner == container
    ensures StartsWith(container, PARTNER_CONTAINER_PREFIX)
            && !Contains(container[|PARTNER_CONTAINER_PREFIX|..], PARTNER_CONTAINER_PREFIX)
            ==> partner == container[|PARTNER_CONTAINER_PREFIX|..]
  {
    assert !Contains(container, PARTNER_CONTAINER_PREFIX) ==>
             ReplaceAll(container, PARTNER_CONTAINER_PREFIX, "") == container by {
      if !Contains(container, PARTNER_CONTAINER_PREFIX) {
        ReplaceAbsent(container, PARTNER_CONTAINER_PREFIX, "");
      }
    }
    assert StartsWith(container, PARTNER_CONTAINER_PREFIX)
           && !Contains(container[|PARTNER_CONTAINER_PREFIX|..], PARTNER_CONTAINER_PREFIX)
           ==> ReplaceAll(container, PARTNER_CONTAINER_PREFIX, "") == container[|PARTNER_CONTAINER_PREFIX|..] by {
      if StartsWith(container, PARTNER_CONTAINER_PREFIX) {
        var rest := container[|PARTNER_CONTAINER_PREFIX|..];
        if !Contains(rest, PARTNER_CONTAINER_PREFIX) {
          assert container == PARTNER_CONTAINER_PREFIX + rest;
          StripPrefix(PARTNER_CONTAINER_PREFIX, rest);
        }
      }
    }
    ReplaceAll(container, PARTNER_CONTAINER_PREFIX, "")
  }

  /** The container a partner deposits its files in, `f"coverage-data-{partner}"`. */
  function PartnerContainer(partner: string): string {
    PARTNER_CONTAINER_PREFIX + partner
  }

  /** The partner named by its own container is that partner. */
  lemma PartnerOfContainer(partner: string)
    requires !Contains(partner, PARTNER_CONTAINER_PREFIX)
    ensures PartnerName(PartnerContainer(partner)) == partner
  {
    StripPrefix(PARTNER_CONTAINER_PREFIX, partner);
  }

  /** `re.split(r'[^a-zA-Z]', file_name)[0]`: the country code a file name starts with. */
  function CountryCode(file: string): (code: string)
    ensures AllLetters(code) && StartsWith(file, code)
    ensures |code| == |file| || !IsLetter(file[|code|])
  {
    LeadingLetters(file)
  }

  /** The classifications the trigger converts country codes and names to. */
  datatype CodeSpace = NameShort | Iso2 | Iso3

  /** `coco.convert(x, to=space)`, which is not part of this model. */
  type Converter = (string, CodeSpace) -> string

  // ---------------------------------------------------------------------------------
  // Where partner data is searched for and where results are stored.
  // ---------------------------------------------------------------------------------

  /** A container and a name prefix to list blobs under. */
  datatype Target = Target(container: string, prefix: string)

  /** The branches of `get_blob_storage_data`. The last one builds an exception without
      raising it, so the prefix is never bound and listing raises `UnboundLocalError`. */
  function SearchTarget(name: string, country: string, convert: Converter): (r: Result<Target>)
    ensures r.Err? <==> name !in {"facebook", "itu", "giga"}
    ensures r.Err? ==> r.error == UnboundLocalError("name_starts_with")
  {
    if name == "facebook" then Ok(Target(PartnerContainer(name), "processed/" + Upper(convert(country, Iso2))))
    else if name == "itu" then Ok(Target(PartnerContainer(name), "processed/" + Lower(convert(country, Iso3))))
    else if name == "giga" then Ok(Target(name, "gold/school_data/" + Upper(convert(country, Iso3))))
    else Err(UnboundLocalError("name_starts_with"))
  }

  /** Each partner is searched for in the container its files arrive in, under the
      "processed/" folder, and the clean-up deletes from that same container. */
  lemma PartnerTargets(name: string, country: string, convert: Converter)
    requires name == "facebook" || name == "itu"
    ensures SearchTarget(name, country, convert).Ok?
    ensures SearchTarget(name, country, convert).value.container == PartnerContainer(name)
    ensures PartnerName(SearchTarget(name, country, convert).value.container) == name
    ensures StartsWith(SearchTarget(name, country, convert).value.prefix, "processed/")
  {
    assert !Contains(name, PARTNER_CONTAINER_PREFIX) by {
      forall i: nat ensures !OccursAt(name, PARTNER_CONTAINER_PREFIX, i) {
      }
    }
    PartnerOfContainer(name);
    var t := SearchTarget(name, country, convert).value;
    assert t.prefix[..|"processed/"|] == "processed/";
  }

  /** The search prefixes: Facebook's holds the ISO2 code in capitals, ITU's the ISO3 code
      in lower case, both under "processed/"; the master file is searched for under
      "gold/school_data/" by the ISO3 code in capitals, in the container named "giga". */
  lemma SearchPrefixes(name: string, country: string, convert: Converter)
    requires SearchTarget(name, country, convert).Ok?
    ensures var t := SearchTarget(name, country, convert).value;
      var head := if name == "giga" then "gold/school_data/" else "processed/";
      var code := convert(country, if name == "facebook" then Iso2 else Iso3);
      && StartsWith(t.prefix, head) && |t.prefix| == |head| + |code|
      && (forall i :: |head| <= i < |t.prefix| ==>
            (IsLetter(t.prefix[i]) <==> IsLetter(code[i - |head|])) &&
            if name == "itu" then !('A' <= t.prefix[i] <= 'Z') else !('a' <= t.prefix[i] <= 'z'))
      && (name == "giga" ==> t.container == "giga")
  {
    var code := convert(country, if name == "facebook" then Iso2 else Iso3);
    UpperIsUpper(code);
    LowerIsLower(code);
  }

  const COVERAGE_DATA_INFIX := "_coverage_data_"
  const MASTER_SUFFIX := "_school_geolocation_coverage_master.csv"

  /** `f'{folder}/{partner}/{iso3}_coverage_data_{stamp}.csv'`. */
  function RawPath(folder: string, partner: string, iso3: string, stamp: string): (path: string)
    ensures IsCsvPath(path) && StartsWith(path, folder + "/" + partner + "/")
  {
    folder + "/" + partner + "/" + iso3 + COVERAGE_DATA_INFIX + stamp + ".csv"
  }

  /** `f'{folder}/{iso3}_school_geolocation_coverage_master.csv'`. */
  function MasterPath(folder: string, iso3: string): (path: string)
    ensures IsCsvPath(path) && StartsWith(path, folder + "/")
  {
    folder + "/" + iso3 + MASTER_SUFFIX
  }

  /** The raw snapshots of the two partners never share a path, whatever the folder,
      the country code and the timestamp. */
  lemma RawPathsDiffer(folder: string, iso3: string, stamp: string)
    ensures RawPath(folder, "facebook", iso3, stamp) != RawPath(folder, "itu", iso3, stamp)
  {
    var a, b := RawPath(folder, "facebook", iso3, stamp), RawPath(folder, "itu", iso3, stamp);
    assert a[|folder| + 1] == 'f' && b[|folder| + 1] == 'i';
  }

  /** Two master paths of one country are the same path only in the same folder. */
  lemma MasterPathFolder(a: string, b: string, iso3: string)
    requires MasterPath(a, iso3) == MasterPath(b, iso3)
    ensures a == b
  {
    assert |a| == |b| by {
      assert |MasterPath(a, iso3)| == |a| + 1 + |iso3| + |MASTER_SUFFIX|;
      assert |MasterPath(b, iso3)| == |b| + 1 + |iso3| + |MASTER_SUFFIX|;
    }
    assert a == MasterPath(a, iso3)[..|a|] && b == MasterPath(b, iso3)[..|b|];
  }

  /** The raw snapshots of the two partners never share a path, and both stored names
      begin with the country code they were written for, so a file name hands that code
      back. */
  lemma StoredNames(folder: string, iso3: string, stamp: string)
    requires AllLetters(iso3)
    ensures RawPath(folder, "facebook", iso3, stamp) != RawPath(folder, "itu", iso3, stamp)
    ensures CountryCode(iso3 + COVERAGE_DATA_INFIX + stamp + ".csv") == iso3
    ensures CountryCode(iso3 + MASTER_SUFFIX) == iso3
  {
    RawPathsDiffer(folder, iso3, stamp);
    assert iso3 + COVERAGE_DATA_INFIX + stamp + ".csv" == iso3 + (COVERAGE_DATA_INFIX + stamp + ".csv");
    LeadingLettersOf(iso3, COVERAGE_DATA_INFIX + stamp + ".csv");
    LeadingLettersOf(iso3, MASTER_SUFFIX);
  }

  // ---------------------------------------------------------------------------------
  // Notification texts.
  // ---------------------------------------------------------------------------------

  function UnprocessedText(file: string, country: string, partner: string): string {
    "File " + file + " for " + country + " has been sent to " + Title(partner)
  }

  function ReceivedText(file: string, country: string, partner: string): string {
    "Coverage file " + file + " for " + country + " has been received from " + Title(partner)
  }

  const NOT_ENOUGH_DATA := "Coverage files not processed. Not enough partner data. At least 2 sources required\n"
  const PROCESSED_AND_SAVED := "Coverage data has been processed and saved"

  /** The first line of the message sent before a failing stage re-raises; the traceback
      that follows it is not part of this model. */
  function FetchFailedText(country: string): string {
    "Error while getting partner and master data for " + country + ":\n"
  }

  const PROCESSING_FAILED := "Error while processing coverage data:\n"
  const SAVING_FAILED := "Error while saving files:\n"
  const DELETING_FAILED := "Error while deleting files:\n"
}
