/** The file catalog behind the HTTP handlers
    (backend/controllers/mrfController.js). A catalog is the set of stored
    document files plus the metadata list kept in one JSON file. Each handler
    is one atomic transition or query over that state; the clock, the fresh
    identifier, JSON serialisation and the outcome of each file write are
    supplied by the caller. */
module MrfController {
  import opened Results
  import opened ClaimSchema
  import opened MrfGenerator
  import Ordering
  import JsText

  /** One metadata record. `createdAt` is the instant (milliseconds since the
      epoch) that the stored ISO-8601 text denotes. */
  datatype Entry = Entry(
    id: string,
    filename: string,
    customer: string,
    createdAt: int,
    size: nat,
    recordCount: nat,
    filePath: string)

  /** A metadata record as the list and details handlers return it: every
      field except `filePath`. */
  datatype FileInfo = FileInfo(
    id: string,
    filename: string,
    customer: string,
    createdAt: int,
    size: nat,
    recordCount: nat)

  function Public(e: Entry): FileInfo {
    FileInfo(e.id, e.filename, e.customer, e.createdAt, e.size, e.recordCount)
  }

  /** The metadata file: not there yet, there but not parseable, or the list
      it holds. */
  datatype Metadata = Missing | Corrupt | Entries(entries: seq<Entry>)

  /** The stored document files (path to content) and the metadata file. */
  datatype Catalog = Catalog(files: map<string, string>, metadata: Metadata)

  /** The outcome of one file write. `fs.writeFile` opens its target with
      flag "w", which truncates it, so a write that fails after the open
      leaves `leftover`, some partial text, in place of the old content; one that fails before the open (`leftover` is `None`) leaves
      the old content. */
  datatype Io = Succeeds | Fails(reason: string, leftover: Option<string>)

  /** What one generate request takes from its surroundings. The handler
      reads the clock three times: inside the transform (`docDay`), for the
      file name (`fileDay`) and for the metadata record (`createdAt`). */
  datatype Environment = Environment(
    fileId: string,
    docDay: string,
    fileDay: string,
    createdAt: int,
    compact: Document -> string,
    pretty: Document -> string,
    documentWrite: Io,
    metadataWrite: Io)

  datatype GenerateReply =
    | Generated(fileId: string, filename: string, message: string)
    | BadRequest(error: string)
    | ServerError(error: string)

  /** The reply of a lookup by id. */
  datatype Lookup<T> = Found(value: T) | NotFound | Failure

  /** What a download sends: the attachment's file name and the stored
      content. */
  datatype Download = Download(filename: string, content: string)

  /** The HTTP status `generateMRF` answers with. */
  function GenerateStatus(r: GenerateReply): nat {
    match r
    case Generated(_, _, _) => 200
    case BadRequest(_) => 400
    case ServerError(_) => 500
  }

  /** The HTTP status `getFileDetails` and `downloadMRF` answer with. */
  function LookupStatus<T>(r: Lookup<T>): nat {
    match r
    case Found(_) => 200
    case NotFound => 404
    case Failure => 500
  }

  // ---------------------------------------------------------------------------
  // File names

  /** The characters a sanitised customer name is made of: `[a-z0-9_]`. */
  predicate IsSafe(c: char) {
    ('a' <= c <= 'z') || JsText.IsDigit(c) || c == '_'
  }

  /** `customer.replace(/[^a-zA-Z0-9]/g, "_").toLowerCase()`. */
  function SanitizeCustomer(customer: string): (s: string)
    ensures |s| == |customer|
    ensures forall i :: 0 <= i < |s| ==> IsSafe(s[i])
    ensures forall i :: 0 <= i < |s| ==> (s[i] == '_' <==> !JsText.IsAsciiAlnum(customer[i]))
    ensures forall i :: 0 <= i < |s| && JsText.IsAsciiAlnum(customer[i]) ==>
      s[i] == JsText.AsciiLower(customer[i])
  {
    JsText.Lower(seq(|customer|, i requires 0 <= i < |customer| =>
      if JsText.IsAsciiAlnum(customer[i]) then customer[i] else '_'))
  }

  /** Sanitising is idempotent, and it ignores the case of letters. */
  lemma SanitizeFacts(customer: string)
    ensures SanitizeCustomer(SanitizeCustomer(customer)) == SanitizeCustomer(customer)
    ensures SanitizeCustomer(JsText.Lower(customer)) == SanitizeCustomer(customer)
  {
  }

  /** The stored file's name: "mrf_", the sanitised customer, "_", the
      calendar day and ".json". The customer part holds only `[a-z0-9_]`,
      so no path separator comes from the customer. */
  function Filename(customer: string, day: string): (r: string)
    ensures |r| == |customer| + |day| + 10
    ensures r[..4] == "mrf_" && r[|r| - 5..] == ".json"
    ensures r[4..4 + |customer|] == SanitizeCustomer(customer)
    ensures r[4 + |customer|] == '_' && r[5 + |customer|..|r| - 5] == day
    ensures forall i :: 4 <= i < 4 + |customer| ==> IsSafe(r[i])
  {
    var s := SanitizeCustomer(customer);
    var r := "mrf_" + s + "_" + day + ".json";
    assert r[4..4 + |customer|] == s;
    assert r[5 + |customer|..|r| - 5] == day;
    r
  }

  /** Two customers whose sanitised names differ never share a file name
      on the same day. */
  lemma FilenameSeparatesCustomers(c1: string, c2: string, day: string)
    requires SanitizeCustomer(c1) != SanitizeCustomer(c2)
    ensures Filename(c1, day) != Filename(c2, day)
  {
    if |c1| == |c2| {
      assert Filename(c1, day)[4..4 + |c1|] != Filename(c2, day)[4..4 + |c2|];
    }
  }

  /** `path.join("./mrf-files", filename)`: the join drops the leading "./".
      Distinct names give distinct paths. */
  function StoragePath(filename: string): (r: string)
    ensures |r| == |filename| + 10 && r[..10] == "mrf-files/" && r[10..] == filename
  {
    "mrf-files/" + filename
  }

  // ---------------------------------------------------------------------------
  // generateMRF

  /** The request lacks claims (absent or empty) or a customer (absent or
      the empty string). */
  predicate Rejects(claims: Option<seq<Claim>>, customer: Option<string>) {
    claims.None? || claims.value == [] || customer.None? || customer.value == ""
  }

  /** The metadata list the handler starts from: an unreadable or
      unparseable file counts as the empty list. */
  function Prior(m: Metadata): seq<Entry> {
    match m
    case Entries(es) => es
    case _ => []
  }

  /** The metadata record a successful generation appends. */
  function NewEntry(claims: seq<Claim>, customer: string, env: Environment): Entry {
    var doc := GenerateMrfFile(claims, customer, env.docDay);
    var filename := Filename(customer, env.fileDay);
    Entry(env.fileId, filename, customer, env.createdAt, |env.compact(doc)|, |claims|,
          StoragePath(filename))
  }

  /** `generateMRF`: check the request, build the document, write it, then
      rewrite the metadata file with one more record. A failed write leaves
      what it truncated behind: a partial document at the path, or a
      metadata file that no longer parses (a proper prefix of the indented
      JSON array lacks its closing bracket). */
  function Generate(cat: Catalog, claims: Option<seq<Claim>>, customer: Option<string>,
                    env: Environment): (out: (GenerateReply, Catalog))
    ensures out.0.BadRequest? <==> Rejects(claims, customer)
    ensures GenerateStatus(out.0) == 400 <==> Rejects(claims, customer)
    ensures GenerateStatus(out.0) == 200 <==>
      !Rejects(claims, customer) && env.documentWrite.Succeeds? && env.metadataWrite.Succeeds?
    ensures GenerateStatus(out.0) == 500 <==>
      !Rejects(claims, customer) && (env.documentWrite.Fails? || env.metadataWrite.Fails?)
    ensures out.0.BadRequest? ==> out.1 == cat
    ensures !Rejects(claims, customer) && env.documentWrite.Fails? && env.documentWrite.leftover.None? ==>
      out == (ServerError(env.documentWrite.reason), cat)
    ensures !Rejects(claims, customer) && env.documentWrite.Fails? && env.documentWrite.leftover.Some? ==>
      && out.0 == ServerError(env.documentWrite.reason)
      && out.1.metadata == cat.metadata
      && out.1.files == cat.files[StoragePath(Filename(customer.value, env.fileDay))
                                  := env.documentWrite.leftover.value]
    ensures !Rejects(claims, customer) && env.documentWrite.Succeeds? ==>
      var doc := GenerateMrfFile(claims.value, customer.value, env.docDay);
      var path := StoragePath(Filename(customer.value, env.fileDay));
      && out.1.files.Keys == cat.files.Keys + {path}
      && out.1.files[path] == env.pretty(doc)
      && (forall p :: p in cat.files && p != path ==> out.1.files[p] == cat.files[p])
    ensures !Rejects(claims, customer) && env.documentWrite.Succeeds? && env.metadataWrite.Fails? ==>
      && out.0 == ServerError(env.metadataWrite.reason)
      && (env.metadataWrite.leftover.None? ==> out.1.metadata == cat.metadata)
      && (env.metadataWrite.leftover.Some? ==> out.1.metadata == Corrupt)
    ensures out.0.Generated? <==>
      !Rejects(claims, customer) && env.documentWrite.Succeeds? && env.metadataWrite.Succeeds?
    ensures out.0.Generated? ==>
      && out.0.fileId == env.fileId
      && out.0.filename == Filename(customer.value, env.fileDay)
      && out.1.metadata.Entries?
      && var es := out.1.metadata.entries;
      && |es| == |Prior(cat.metadata)| + 1
      && es[..|es| - 1] == Prior(cat.metadata)
      && es[|es| - 1].id == env.fileId
      && es[|es| - 1].customer == customer.value
      && es[|es| - 1].recordCount == |claims.value|
      && es[|es| - 1].filePath == StoragePath(out.0.filename)
      && es[|es| - 1].size == |env.compact(GenerateMrfFile(claims.value, customer.value, env.docDay))|
  {
    if Rejects(claims, customer) then
      (BadRequest("Missing claims or customer"), cat)
    else
      var doc := GenerateMrfFile(claims.value, customer.value, env.docDay);
      var filename := Filename(customer.value, env.fileDay);
      var path := StoragePath(filename);
      match env.documentWrite
      case Fails(reason, leftover) =>
        (ServerError(reason),
         if leftover.Some? then Catalog(cat.files[path := leftover.value], cat.metadata) else cat)
      case Succeeds =>
        var files := cat.files[path := env.pretty(doc)];
        var entry := NewEntry(claims.value, customer.value, env);
        match env.metadataWrite
        case Fails(reason, leftover) =>
          (ServerError(reason), Catalog(files, if leftover.Some? then Corrupt else cat.metadata))
        case Succeeds =>
          (Generated(env.fileId, filename, "Generated MRF for " + customer.value),
           Catalog(files, Entries(Prior(cat.metadata) + [entry])))
  }

  // ---------------------------------------------------------------------------
  // getMRFFiles

  function EntryTime(e: Entry): int {
    e.createdAt
  }

  function InfoTime(f: FileInfo): int {
    f.createdAt
  }

  function PublicAll(es: seq<Entry>): (fs: seq<FileInfo>)
    ensures |fs| == |es|
    ensures forall i :: 0 <= i < |es| ==> fs[i] == Public(es[i])
  {
    seq(|es|, i requires 0 <= i < |es| => Public(es[i]))
  }

  /** `getMRFFiles`: the records newest first, without their paths; records
      created at the same instant keep their metadata order. An unreadable
      or unparseable metadata file lists as empty. */
  function ListFiles(cat: Catalog): (r: seq<FileInfo>)
    ensures !cat.metadata.Entries? ==> r == []
    ensures cat.metadata.Entries? ==> multiset(r) == multiset(PublicAll(cat.metadata.entries))
    ensures Ordering.SortedDescending(r, InfoTime)
    ensures cat.metadata.Entries? ==> forall t ::
      Ordering.WithKey(r, InfoTime, t) == Ordering.WithKey(PublicAll(cat.metadata.entries), InfoTime, t)
  {
    match cat.metadata
    case Entries(es) =>
      PublicAllCommutesWithSort(es);
      Ordering.SortStable(PublicAll(es), InfoTime);
      PublicAll(Ordering.SortDescending(es, EntryTime))
    case _ => []
  }

  lemma PublicAllCons(e: Entry, rest: seq<Entry>)
    ensures PublicAll([e] + rest) == [Public(e)] + PublicAll(rest)
  {
  }

  lemma PublicAllTail(ys: seq<Entry>)
    requires ys != []
    ensures PublicAll(ys) == [Public(ys[0])] + PublicAll(ys[1..])
  {
  }

  lemma {:induction false} PublicAllCommutesWithInsert(x: Entry, ys: seq<Entry>)
    ensures PublicAll(Ordering.Insert(x, ys, EntryTime))
         == Ordering.Insert(Public(x), PublicAll(ys), InfoTime)
  {
    if ys == [] {
      PublicAllCons(x, []);
    } else if EntryTime(ys[0]) >= EntryTime(x) {
      var pys := PublicAll(ys);
      var rest := Ordering.Insert(x, ys[1..], EntryTime);
      PublicAllCommutesWithInsert(x, ys[1..]);
      PublicAllTail(ys);
      Ordering.InsertAfterHead(x, ys, EntryTime);
      Ordering.InsertAfterHead(Public(x), pys, InfoTime);
      PublicAllCons(ys[0], rest);
    } else {
      PublicAllCons(x, ys);
    }
  }

  /** Sorting then dropping paths gives what dropping paths then sorting
      gives. */
  lemma {:induction false} PublicAllCommutesWithSort(es: seq<Entry>)
    ensures PublicAll(Ordering.SortDescending(es, EntryTime))
         == Ordering.SortDescending(PublicAll(es), InfoTime)
  {
    if es != [] {
      var init := es[..|es| - 1];
      PublicAllCommutesWithSort(init);
      assert PublicAll(es)[..|es| - 1] == PublicAll(init);
      PublicAllCommutesWithInsert(es[|es| - 1], Ordering.SortDescending(init, EntryTime));
    }
  }

  // ---------------------------------------------------------------------------
  // getFileDetails and downloadMRF

  /** `metadata.find(f => f.id === id)`, as the index of the first match. */
  function FindById(es: seq<Entry>, id: string): (r: Option<nat>)
    ensures r.Some? ==> r.value < |es| && es[r.value].id == id
    ensures r.Some? ==> forall j :: 0 <= j < r.value ==> es[j].id != id
    ensures r.None? <==> forall j :: 0 <= j < |es| ==> es[j].id != id
  {
    if es == [] then None
    else if es[0].id == id then Some(0)
    else
      match FindById(es[1..], id)
      case None => None
      case Some(k) => Some(k + 1)
  }

  /** `getFileDetails`: the first record with the id, without its path. */
  function Details(cat: Catalog, id: string): (r: Lookup<FileInfo>)
    ensures r.Failure? <==> !cat.metadata.Entries?
    ensures LookupStatus(r) == 500 <==> !cat.metadata.Entries?
    ensures LookupStatus(r) == 404 <==>
      cat.metadata.Entries? && forall j :: 0 <= j < |cat.metadata.entries| ==> cat.metadata.entries[j].id != id
    ensures r.NotFound? <==>
      cat.metadata.Entries? && forall j :: 0 <= j < |cat.metadata.entries| ==> cat.metadata.entries[j].id != id
    ensures r.Found? ==> exists k :: (
      && 0 <= k < |cat.metadata.entries|
      && cat.metadata.entries[k].id == id
      && (forall j :: 0 <= j < k ==> cat.metadata.entries[j].id != id)
      && r.value == Public(cat.metadata.entries[k]))
  {
    match cat.metadata
    case Entries(es) =>
      (match FindById(es, id)
       case None => NotFound
       case Some(k) => Found(Public(es[k])))
    case _ => Failure
  }

  /** `downloadMRF`: the stored content of the first record with the id,
      under the record's file name. A record whose file is gone is a server
      error, like an unreadable metadata file. */
  function DownloadFile(cat: Catalog, id: string): (r: Lookup<Download>)
    ensures !cat.metadata.Entries? ==> r.Failure?
    ensures !cat.metadata.Entries? ==> LookupStatus(r) == 500
    ensures LookupStatus(r) == 404 <==>
      cat.metadata.Entries? && forall j :: 0 <= j < |cat.metadata.entries| ==> cat.metadata.entries[j].id != id
    ensures r.NotFound? <==>
      cat.metadata.Entries? && forall j :: 0 <= j < |cat.metadata.entries| ==> cat.metadata.entries[j].id != id
    ensures r.Found? ==> exists k :: (
      && 0 <= k < |cat.metadata.entries|
      && cat.metadata.entries[k].id == id
      && (forall j :: 0 <= j < k ==> cat.metadata.entries[j].id != id)
      && cat.metadata.entries[k].filePath in cat.files
      && r.value == Download(cat.metadata.entries[k].filename, cat.files[cat.metadata.entries[k].filePath]))
    ensures r.Failure? && cat.metadata.Entries? ==> exists k :: (
      && 0 <= k < |cat.metadata.entries|
      && cat.metadata.entries[k].id == id
      && (forall j :: 0 <= j < k ==> cat.metadata.entries[j].id != id)
      && cat.metadata.entries[k].filePath !in cat.files)
  {
    match cat.metadata
    case Entries(es) =>
      (match FindById(es, id)
       case None => NotFound
       case Some(k) =>
         if es[k].filePath in cat.files then Found(Download(es[k].filename, cat.files[es[k].filePath]))
         else Failure)
    case _ => Failure
  }

  // ---------------------------------------------------------------------------
  // Properties across handlers

  /** No two records share an id. */
  ghost predicate UniqueIds(es: seq<Entry>) {
    forall i, j :: 0 <= i < j < |es| ==> es[i].id != es[j].id
  }

  /** A fresh identifier: no prior record carries it. */
  ghost predicate Fresh(cat: Catalog, id: string) {
    forall j :: 0 <= j < |Prior(cat.metadata)| ==> Prior(cat.metadata)[j].id != id
  }

  /** Generating with a fresh id keeps ids unique. */
  lemma GenerateKeepsIdsUnique(cat: Catalog, claims: Option<seq<Claim>>, customer: Option<string>,
                               env: Environment)
    requires UniqueIds(Prior(cat.metadata))
    requires Fresh(cat, env.fileId)
    ensures UniqueIds(Prior(Generate(cat, claims, customer, env).1.metadata))
  {
  }

  /** The catalogue after a successful generation. */
  lemma GenerateSucceeds(cat: Catalog, claims: seq<Claim>, customer: string, env: Environment)
    requires !Rejects(Some(claims), Some(customer))
    requires env.documentWrite.Succeeds? && env.metadataWrite.Succeeds?
    ensures Generate(cat, Some(claims), Some(customer), env).1.metadata
         == Entries(Prior(cat.metadata) + [NewEntry(claims, customer, env)])
    ensures Generate(cat, Some(claims), Some(customer), env).1.files
         == cat.files[StoragePath(Filename(customer, env.fileDay))
                      := env.pretty(GenerateMrfFile(claims, customer, env.docDay))]
  {
  }

  /** A record appended after records with other ids is the first match. */
  lemma {:induction false} FindAppended(es: seq<Entry>, e: Entry)
    requires forall j :: 0 <= j < |es| ==> es[j].id != e.id
    ensures FindById(es + [e], e.id) == Some(|es|)
  {
    if es == [] {
      assert es + [e] == [e];
    } else {
      var xs := es + [e];
      assert xs[0] == es[0];
      assert xs[1..] == es[1..] + [e];
      FindAppended(es[1..], e);
    }
  }

  /** Appending records does not move a match that already exists. */
  lemma {:induction false} FindStable(es: seq<Entry>, more: seq<Entry>, id: string)
    requires FindById(es, id).Some?
    ensures FindById(es + more, id) == FindById(es, id)
  {
    assert (es + more)[0] == es[0];
    if es[0].id != id {
      assert (es + more)[1..] == es[1..] + more;
      FindStable(es[1..], more, id);
    }
  }

  /** After a successful generation, the details of the new id are the new
      record: the claim count, the customer, the file name and the compact
      serialisation's length. */
  lemma GenerateThenDetails(cat: Catalog, claims: seq<Claim>, customer: string, env: Environment)
    requires !Rejects(Some(claims), Some(customer))
    requires env.documentWrite.Succeeds? && env.metadataWrite.Succeeds?
    requires Fresh(cat, env.fileId)
    ensures Details(Generate(cat, Some(claims), Some(customer), env).1, env.fileId)
         == Found(FileInfo(env.fileId, Filename(customer, env.fileDay), customer, env.createdAt,
                           |env.compact(GenerateMrfFile(claims, customer, env.docDay))|, |claims|))
  {
    GenerateSucceeds(cat, claims, customer, env);
    FindAppended(Prior(cat.metadata), NewEntry(claims, customer, env));
  }

  /** After a successful generation, downloading the new id yields the
      indented serialisation that was written, under the new file name. */
  lemma GenerateThenDownload(cat: Catalog, claims: seq<Claim>, customer: string, env: Environment)
    requires !Rejects(Some(claims), Some(customer))
    requires env.documentWrite.Succeeds? && env.metadataWrite.Succeeds?
    requires Fresh(cat, env.fileId)
    ensures DownloadFile(Generate(cat, Some(claims), Some(customer), env).1, env.fileId)
         == Found(Download(Filename(customer, env.fileDay),
                           env.pretty(GenerateMrfFile(claims, customer, env.docDay))))
  {
    GenerateSucceeds(cat, claims, customer, env);
    FindAppended(Prior(cat.metadata), NewEntry(claims, customer, env));
  }

  /** After a successful generation the listing holds one more record, the
      new one among them. */
  lemma GenerateThenList(cat: Catalog, claims: seq<Claim>, customer: string, env: Environment)
    requires !Rejects(Some(claims), Some(customer))
    requires env.documentWrite.Succeeds? && env.metadataWrite.Succeeds?
    ensures var listed := ListFiles(Generate(cat, Some(claims), Some(customer), env).1);
      && |listed| == |Prior(cat.metadata)| + 1
      && Public(NewEntry(claims, customer, env)) in listed
  {
    GenerateSucceeds(cat, claims, customer, env);
    var es := Prior(cat.metadata) + [NewEntry(claims, customer, env)];
    var listed := ListFiles(Generate(cat, Some(claims), Some(customer), env).1);
    assert PublicAll(es)[|es| - 1] == Public(NewEntry(claims, customer, env));
    assert Public(NewEntry(claims, customer, env)) in multiset(PublicAll(es));
    assert |listed| == |multiset(listed)| == |multiset(PublicAll(es))|;
  }

  /** Two generations for the same customer on the same day write the same
      path: the second document replaces the first on disk, both records
      stay with distinct ids, and the first record's download now yields the
      second document. */
  lemma SameDayOverwrite(cat: Catalog, claims1: seq<Claim>, claims2: seq<Claim>, customer: string,
                         env1: Environment, env2: Environment)
    requires !Rejects(Some(claims1), Some(customer)) && !Rejects(Some(claims2), Some(customer))
    requires env1.documentWrite.Succeeds? && env1.metadataWrite.Succeeds?
    requires env2.documentWrite.Succeeds? && env2.metadataWrite.Succeeds?
    requires env1.fileDay == env2.fileDay
    requires Fresh(cat, env1.fileId) && env1.fileId != env2.fileId
    ensures var mid := Generate(cat, Some(claims1), Some(customer), env1).1;
      var last := Generate(mid, Some(claims2), Some(customer), env2).1;
      && |last.metadata.entries| == |Prior(cat.metadata)| + 2
      && last.metadata.entries[|Prior(cat.metadata)|].id != last.metadata.entries[|Prior(cat.metadata)| + 1].id
      && last.metadata.entries[|Prior(cat.metadata)|].filePath
         == last.metadata.entries[|Prior(cat.metadata)| + 1].filePath
      && DownloadFile(last, env1.fileId)
         == Found(Download(Filename(customer, env1.fileDay),
                           env2.pretty(GenerateMrfFile(claims2, customer, env2.docDay))))
  {
    var e1 := NewEntry(claims1, customer, env1);
    var e2 := NewEntry(claims2, customer, env2);
    var mid := Generate(cat, Some(claims1), Some(customer), env1).1;
    GenerateSucceeds(cat, claims1, customer, env1);
    GenerateSucceeds(mid, claims2, customer, env2);
    var before := Prior(cat.metadata);
    assert Prior(mid.metadata) == before + [e1];
    FindAppended(before, e1);
    FindStable(before + [e1], [e2], env1.fileId);
  }

  /** A metadata write that fails after truncating the file loses the
      history: the listing turns empty, and the next successful generation
      starts the list afresh with its own record only. */
  lemma TruncatedMetadataLosesHistory(cat: Catalog, claims: seq<Claim>, customer: string,
                                      env1: Environment, env2: Environment)
    requires !Rejects(Some(claims), Some(customer))
    requires env1.documentWrite.Succeeds? && env1.metadataWrite.Fails?
    requires env1.metadataWrite.leftover.Some?
    requires env2.documentWrite.Succeeds? && env2.metadataWrite.Succeeds?
    ensures var mid := Generate(cat, Some(claims), Some(customer), env1).1;
      && ListFiles(mid) == []
      && Generate(mid, Some(claims), Some(customer), env2).1.metadata
         == Entries([NewEntry(claims, customer, env2)])
  {
    var mid := Generate(cat, Some(claims), Some(customer), env1).1;
    assert mid.metadata == Corrupt;
    GenerateSucceeds(mid, claims, customer, env2);
    assert Prior(mid.metadata) == [];
  }
}
