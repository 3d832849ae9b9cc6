/** The storage account the trigger reads from and writes to, and the channel its
    notifications go to. A container holds its blobs in name order, the order in which the
    service lists them; a blob holds the table its CSV text parses to. */
module BlobStore {
  import opened Strings
  import opened Tables

  // ---------------------------------------------------------------------------------
  // Name order.
  // ---------------------------------------------------------------------------------

  /** `a` sorts strictly before `b`, character by character. */
  predicate Below(a: string, b: string)
    decreases |a|
  {
    b != [] && (a == [] || a[0] < b[0] || (a[0] == b[0] && Below(a[1..], b[1..])))
  }

  lemma {:induction false} BelowIrreflexive(a: string)
    ensures !Below(a, a)
    decreases |a|
  {
    if a != [] {
      BelowIrreflexive(a[1..]);
    }
  }

  lemma {:induction false} BelowTransitive(a: string, b: string, c: string)
    requires Below(a, b) && Below(b, c)
    ensures Below(a, c)
    decreases |a|
  {
    if a != [] && a[0] == b[0] && b[0] == c[0] {
      BelowTransitive(a[1..], b[1..], c[1..]);
    }
  }

  lemma {:induction false} BelowTotal(a: string, b: string)
    requires a != b
    ensures Below(a, b) || Below(b, a)
    decreases |a|
  {
    if a != [] && b != [] && a[0] == b[0] {
      assert a == [a[0]] + a[1..] && b == [b[0]] + b[1..];
      BelowTotal(a[1..], b[1..]);
    }
  }

  // ---------------------------------------------------------------------------------
  // Containers.
  // ---------------------------------------------------------------------------------

  /** A stored blob: its name and the table its contents parse to. */
  datatype Blob = Blob(name: string, data: Table)

  predicate Sorted(bs: seq<Blob>) {
    forall i, j :: 0 <= i < j < |bs| ==> Below(bs[i].name, bs[j].name)
  }

  predicate ValidContainer(bs: seq<Blob>) {
    Sorted(bs) && forall b :: b in bs ==> WellFormed(b.data)
  }

  /** The position of the blob called `name`. */
  function Find(bs: seq<Blob>, name: string): (r: Option<nat>)
    ensures r.Some? ==> r.value < |bs| && bs[r.value].name == name
    ensures r.None? <==> forall b :: b in bs ==> b.name != name
  {
    if bs == [] then None
    else if bs[0].name == name then Some(0)
    else match Find(bs[1..], name)
      case None => None
      case Some(k) => Some(k + 1)
  }

  /** The one blob of a sorted container called `n`, if there is one. */
  lemma NamesUnique(bs: seq<Blob>, b: Blob, n: string)
    requires Sorted(bs) && b in bs && b.name == n
    ensures Find(bs, n) == Some(IndexOfBlob(bs, b))
  {
    var k := IndexOfBlob(bs, b);
    var f := Find(bs, n).value;
    if f < k {
      assert Below(bs[f].name, bs[k].name);
      BelowIrreflexive(n);
    } else if k < f {
      assert Below(bs[k].name, bs[f].name);
      BelowIrreflexive(n);
    }
  }

  function IndexOfBlob(bs: seq<Blob>, b: Blob): (k: nat)
    requires b in bs
    ensures k < |bs| && bs[k] == b
  {
    if bs[0] == b then 0 else 1 + IndexOfBlob(bs[1..], b)
  }

  /** Stores `b`, replacing the blob of the same name or inserting it in name order. */
  function Put(bs: seq<Blob>, b: Blob): (r: seq<Blob>)
    requires Sorted(bs)
    ensures Sorted(r)
    ensures forall x :: x in r <==> x == b || (x in bs && x.name != b.name)
  {
    if bs == [] then [b]
    else if bs[0].name == b.name then
      assert forall x :: x in bs[1..] ==> x.name != b.name by {
        forall j | 1 <= j < |bs| ensures bs[j].name != b.name {
          assert Below(bs[0].name, bs[j].name);
          BelowIrreflexive(b.name);
        }
      }
      [b] + bs[1..]
    else if Below(b.name, bs[0].name) then
      assert forall j :: 0 <= j < |bs| ==> Below(b.name, bs[j].name) && bs[j].name != b.name by {
        forall j | 0 <= j < |bs| ensures Below(b.name, bs[j].name) && bs[j].name != b.name {
          if j > 0 {
            assert Below(bs[0].name, bs[j].name);
            BelowTransitive(b.name, bs[0].name, bs[j].name);
          }
          BelowIrreflexive(b.name);
        }
      }
      [b] + bs
    else
      var rest := Put(bs[1..], b);
      BelowTotal(bs[0].name, b.name);
      assert forall x :: x in rest ==> Below(bs[0].name, x.name) by {
        forall x | x in rest ensures Below(bs[0].name, x.name) {
          if x != b {
            var j := IndexOfBlob(bs[1..], x);
            assert bs[j + 1] == x;
          }
        }
      }
      [bs[0]] + rest
  }

  /** Removes the blob called `name`. */
  function Remove(bs: seq<Blob>, name: string): (r: seq<Blob>)
    requires Sorted(bs)
    ensures Sorted(r)
    ensures forall x :: x in r <==> x in bs && x.name != name
  {
    if bs == [] then []
    else if bs[0].name == name then
      assert forall x :: x in bs[1..] ==> x.name != name by {
        forall j | 1 <= j < |bs| ensures bs[j].name != name {
          assert Below(bs[0].name, bs[j].name);
          BelowIrreflexive(name);
        }
      }
      bs[1..]
    else
      var rest := Remove(bs[1..], name);
      assert forall x :: x in rest ==> Below(bs[0].name, x.name) by {
        forall x | x in rest ensures Below(bs[0].name, x.name) {
          var j := IndexOfBlob(bs[1..], x);
          assert bs[j + 1] == x;
        }
      }
      [bs[0]] + rest
  }

  /** `list_blobs(name_starts_with=prefix)`: the names under a prefix, in listing order. */
  function Listing(bs: seq<Blob>, prefix: string): (names: seq<string>)
    requires Sorted(bs)
    ensures forall n :: n in names <==> exists b :: b in bs && b.name == n && StartsWith(n, prefix)
    ensures forall i, j :: 0 <= i < j < |names| ==> Below(names[i], names[j])
  {
    if bs == [] then []
    else
      var rest := Listing(bs[1..], prefix);
      assert forall n :: n in rest ==> Below(bs[0].name, n) by {
        forall n | n in rest ensures Below(bs[0].name, n) {
          var b :| b in bs[1..] && b.name == n && StartsWith(n, prefix);
          var j := IndexOfBlob(bs[1..], b);
          assert bs[j + 1] == b;
        }
      }
      if StartsWith(bs[0].name, prefix) then [bs[0].name] + rest else rest
  }

  /** The first name listed under a prefix is the least name under it. */
  lemma ListingFirstIsLeast(bs: seq<Blob>, prefix: string)
    requires Sorted(bs) && Listing(bs, prefix) != []
    ensures StartsWith(Listing(bs, prefix)[0], prefix)
    ensures forall b :: b in bs && StartsWith(b.name, prefix) && b.name != Listing(bs, prefix)[0] ==>
      Below(Listing(bs, prefix)[0], b.name)
  {
    var names := Listing(bs, prefix);
    assert names[0] in names;
    forall b | b in bs && StartsWith(b.name, prefix) && b.name != names[0]
      ensures Below(names[0], b.name)
    {
      assert b.name in names;
      var j :| 0 <= j < |names| && names[j] == b.name;
      assert j != 0;
    }
  }

  // ---------------------------------------------------------------------------------
  // The account: containers by name.
  // ---------------------------------------------------------------------------------

  type Store = map<string, seq<Blob>>

  predicate ValidStore(s: Store) {
    forall c :: c in s ==> ValidContainer(s[c])
  }

  /** Reading a blob; a missing container or blob is a `ResourceNotFoundError`. */
  function Read(s: Store, container: string, path: string): (r: Result<Table>)
    ensures r.Ok? <==> container in s && exists b :: b in s[container] && b.name == path
    ensures r.Ok? ==> exists b :: b in s[container] && b == Blob(path, r.value)
    ensures r.Ok? && ValidStore(s) ==> WellFormed(r.value)
  {
    if container !in s then Err(ResourceNotFound(container, path))
    else match Find(s[container], path)
      case None => Err(ResourceNotFound(container, path))
      case Some(k) =>
        assert s[container][k] in s[container];
        Ok(s[container][k].data)
  }

  /** `upload_blob(data, overwrite=overwrite)`: fails when the container is missing, or
      when the blob exists and may not be overwritten. */
  function Write(s: Store, container: string, path: string, data: Table, overwrite: bool): (r: Result<Store>)
    requires ValidStore(s) && WellFormed(data)
    ensures r.Ok? ==> ValidStore(r.value)
    ensures r.Err? <==> container !in s || (!overwrite && Read(s, container, path).Ok?)
  {
    if container !in s then Err(ResourceNotFound(container, path))
    else if !overwrite && Find(s[container], path).Some? then Err(ResourceExists(container, path))
    else
      var bs := Put(s[container], Blob(path, data));
      assert forall b :: b in bs ==> WellFormed(b.data);
      Ok(s[container := bs])
  }

  /** `delete_blob()`: fails when the blob is not there. */
  function Erase(s: Store, container: string, path: string): (r: Result<Store>)
    requires ValidStore(s)
    ensures r.Ok? ==> ValidStore(r.value)
    ensures r.Err? <==> Read(s, container, path).Err?
  {
    if container !in s || Find(s[container], path).None? then Err(ResourceNotFound(container, path))
    else
      var bs := Remove(s[container], path);
      assert forall b :: b in bs ==> WellFormed(b.data);
      Ok(s[container := bs])
  }

  /** Listing a missing container fails as soon as the listing is iterated. */
  function ListNames(s: Store, container: string, prefix: string): (r: Result<seq<string>>)
    requires ValidStore(s)
    ensures r.Err? <==> container !in s
    ensures r.Ok? ==> forall n :: n in r.value ==> StartsWith(n, prefix) && Read(s, container, n).Ok?
  {
    if container !in s then Err(ResourceNotFound(container, prefix))
    else
      var names := Listing(s[container], prefix);
      assert forall n :: n in names ==> exists b :: b in s[container] && b.name == n;
      Ok(names)
  }

  /** After a write the blob reads back as written, and every other blob reads as before. */
  lemma WriteThenRead(s: Store, container: string, path: string, data: Table, overwrite: bool, c: string, p: string)
    requires ValidStore(s) && WellFormed(data)
    requires Write(s, container, path, data, overwrite).Ok?
    ensures Read(Write(s, container, path, data, overwrite).value, c, p) ==
      if c == container && p == path then Ok(data) else Read(s, c, p)
  {
    var s' := Write(s, container, path, data, overwrite).value;
    if c == container {
      var bs, bs' := s[c], s'[c];
      if p == path {
        assert Blob(path, data) in bs';
        NamesUnique(bs', Blob(path, data), p);
      } else {
        match Find(bs, p)
        case None =>
        case Some(k) =>
          assert bs[k] in bs';
          NamesUnique(bs', bs[k], p);
      }
    }
  }

  /** After a delete the blob is gone and every other blob reads as before. */
  lemma EraseThenRead(s: Store, container: string, path: string, c: string, p: string)
    requires ValidStore(s)
    requires Erase(s, container, path).Ok?
    ensures Read(Erase(s, container, path).value, c, p) ==
      if c == container && p == path then Err(ResourceNotFound(c, p)) else Read(s, c, p)
  {
    var s' := Erase(s, container, path).value;
    if c == container {
      var bs, bs' := s[c], s'[c];
      if p == path {
      } else {
        match Find(bs, p)
        case None =>
        case Some(k) =>
          assert bs[k] in bs';
          NamesUnique(bs', bs[k], p);
      }
    }
  }

  // ---------------------------------------------------------------------------------
  // The stateful service and the notification channel.
  // ---------------------------------------------------------------------------------

  /** The notifications sent, oldest first; posting them is not part of this model. */
  class Notifier {
    var sent: seq<string>

    constructor()
      ensures sent == []
    {
      sent := [];
    }

    /** `send_slack_message(message=text)`. */
    method Send(text: string)
      modifies this
      ensures sent == old(sent) + [text]
    {
      sent := sent + [text];
    }
  }

  /** A `BlobServiceClient` together with the account it is connected to. */
  class BlobService {
    var store: Store

    constructor(s: Store)
      ensures store == s
    {
      store := s;
    }

    ghost predicate Valid()
      reads this
    {
      ValidStore(store)
    }

    /** `get_list_of_blobs`, iterated. */
    function List(container: string, prefix: string): (r: Result<seq<string>>)
      requires Valid()
      reads this
      ensures r == ListNames(store, container, prefix)
    {
      ListNames(store, container, prefix)
    }

    /** `download_from_blob_client`: on failure a notification is sent before the error is
        raised again. */
    method Download(container: string, path: string, slack: Notifier) returns (r: Result<Table>)
      modifies slack
      ensures r == Read(store, container, path)
      ensures slack.sent == old(slack.sent) + if r.Err? then [DownloadFailedText(path, container)] else []
    {
      r := Read(store, container, path);
      if r.Err? {
        slack.Send(DownloadFailedText(path, container));
      }
    }

    /** `upload_to_blob_client`. */
    method Upload(container: string, path: string, data: Table, overwrite: bool) returns (e: Option<Error>)
      requires Valid() && WellFormed(data)
      modifies this
      ensures Valid()
      ensures Write(old(store), container, path, data, overwrite).Ok? ==>
        e.None? && store == Write(old(store), container, path, data, overwrite).value
      ensures Write(old(store), container, path, data, overwrite).Err? ==>
        e == Some(Write(old(store), container, path, data, overwrite).error) && store == old(store)
    {
      var r := Write(store, container, path, data, overwrite);
      if r.Ok? {
        store := r.value;
        e := None;
      } else {
        e := Some(r.error);
      }
    }

    /** `delete_blob_client`. */
    method Delete(container: string, path: string) returns (e: Option<Error>)
      requires Valid()
      modifies this
      ensures Valid()
      ensures Erase(old(store), container, path).Ok? ==>
        e.None? && store == Erase(old(store), container, path).value
      ensures Erase(old(store), container, path).Err? ==>
        e == Some(Erase(old(store), container, path).error) && store == old(store)
    {
      var r := Erase(store, container, path);
      if r.Ok? {
        store := r.value;
        e := None;
      } else {
        e := Some(r.error);
      }
    }
  }

  function DownloadFailedText(path: string, container: string): string {
    "Error while fetching file: " + path + " from container " + container
  }
}
