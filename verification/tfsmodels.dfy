/** The records the proxy fills from the server's JSON, and the tolerant
    decoding rules it applies: a field is copied only when the member is
    present with the expected JSON type, and otherwise keeps the value the
    record was constructed with. The records' constructors are not part of
    this model, so each decoder takes that default-constructed record as
    `blank`. */
module TfsModels {
  import opened Wrappers
  import opened Json

  /** One child of a listed remote directory (TfFileInfo). */
  datatype FileInfo = FileInfo(path: string, url: string, version: int, isFolder: bool)

  /** One entry of a changeset's change list (ChangesetChange). */
  datatype ChangesetChange = ChangesetChange(changeType: string, version: int, path: string, url: string)

  /** A changeset (ChangesetInfo); `comment` and `changes` are filled by separate calls. */
  datatype ChangesetInfo = ChangesetInfo(changesetId: int, author: string, comment: string, changes: seq<ChangesetChange>)

  // ---------------------------------------------------------------------
  // Decoders

  /** One element of a listing's `value` array. `isFolder` is true only for a
      JSON `true`; it is reset to false before the member is consulted. */
  function DecodeFileInfo(item: Value, blank: FileInfo): (f: FileInfo)
    ensures NumberAt(item, "version").Some? ==> f.version == NumberAt(item, "version").value
    ensures NumberAt(item, "version").None? ==> f.version == blank.version
    ensures StringAt(item, "path").Some? ==> f.path == StringAt(item, "path").value
    ensures StringAt(item, "path").None? ==> f.path == blank.path
    ensures StringAt(item, "url").Some? ==> f.url == StringAt(item, "url").value
    ensures StringAt(item, "url").None? ==> f.url == blank.url
    ensures f.isFolder <==> Lookup(item, "isFolder") == Some(Bool(true))
  {
    FileInfo(
      StringAt(item, "path").GetOr(blank.path),
      StringAt(item, "url").GetOr(blank.url),
      NumberAt(item, "version").GetOr(blank.version),
      TrueAt(item, "isFolder"))
  }

  /** The `displayName` of an `author` object, when both are there with the right types. */
  function AuthorName(v: Value): Option<string> {
    match ObjectAt(v, "author")
    case Some(author) => StringAt(author, "displayName")
    case None => None
  }

  /** One element of a changeset list's `value` array. */
  function DecodeChangeset(v: Value, blank: ChangesetInfo): (c: ChangesetInfo)
    ensures NumberAt(v, "changesetId").Some? ==> c.changesetId == NumberAt(v, "changesetId").value
    ensures NumberAt(v, "changesetId").None? ==> c.changesetId == blank.changesetId
    ensures c.author != blank.author ==> ObjectAt(v, "author").Some?
    ensures ObjectAt(v, "author").Some? && StringAt(ObjectAt(v, "author").value, "displayName").Some? ==>
      c.author == StringAt(ObjectAt(v, "author").value, "displayName").value
    ensures ObjectAt(v, "author").None? || StringAt(ObjectAt(v, "author").value, "displayName").None? ==>
      c.author == blank.author
    ensures c.comment == blank.comment && c.changes == blank.changes
  {
    blank.(changesetId := NumberAt(v, "changesetId").GetOr(blank.changesetId),
           author := AuthorName(v).GetOr(blank.author))
  }

  /** One element of a change list's `value` array: `changeType` at the top,
      `version`, `path` and `url` inside an `item` object. */
  function DecodeChange(v: Value, blank: ChangesetChange): (c: ChangesetChange)
    ensures StringAt(v, "changeType").Some? ==> c.changeType == StringAt(v, "changeType").value
    ensures StringAt(v, "changeType").None? ==> c.changeType == blank.changeType
    ensures ObjectAt(v, "item").None? ==> c.version == blank.version && c.path == blank.path && c.url == blank.url
    ensures ObjectAt(v, "item").Some? ==>
      var item := ObjectAt(v, "item").value;
      && (NumberAt(item, "version").Some? ==> c.version == NumberAt(item, "version").value)
      && (NumberAt(item, "version").None? ==> c.version == blank.version)
      && (StringAt(item, "path").Some? ==> c.path == StringAt(item, "path").value)
      && (StringAt(item, "path").None? ==> c.path == blank.path)
      && (StringAt(item, "url").Some? ==> c.url == StringAt(item, "url").value)
      && (StringAt(item, "url").None? ==> c.url == blank.url)
  {
    var changeType := StringAt(v, "changeType").GetOr(blank.changeType);
    match ObjectAt(v, "item")
    case None => blank.(changeType := changeType)
    case Some(item) =>
      ChangesetChange(
        changeType,
        NumberAt(item, "version").GetOr(blank.version),
        StringAt(item, "path").GetOr(blank.path),
        StringAt(item, "url").GetOr(blank.url))
  }

  /** `acc` followed by one decoded record per element of `items`, in order. */
  function AppendDecoded<T>(acc: seq<T>, items: seq<Value>, decode: Value -> T): (r: seq<T>)
    ensures |r| == |acc| + |items|
    ensures r[..|acc|] == acc
    ensures forall k :: 0 <= k < |items| ==> r[|acc| + k] == decode(items[k])
    decreases |items|
  {
    if |items| == 0 then acc
    else AppendDecoded(acc, items[..|items| - 1], decode) + [decode(items[|items| - 1])]
  }

  // ---------------------------------------------------------------------
  // Encoders: the members a well-formed server response carries

  function EncodeFileInfo(f: FileInfo): seq<Member> {
    [Member("version", Number(f.version)), Member("path", String(f.path)),
     Member("url", String(f.url)), Member("isFolder", Bool(f.isFolder))]
  }

  function EncodeChangeset(c: ChangesetInfo): seq<Member> {
    [Member("changesetId", Number(c.changesetId)),
     Member("author", Object([Member("displayName", String(c.author))]))]
  }

  function EncodeChange(c: ChangesetChange): seq<Member> {
    [Member("changeType", String(c.changeType)),
     Member("item", Object([Member("version", Number(c.version)), Member("path", String(c.path)),
                            Member("url", String(c.url))]))]
  }

  /** Each member of an encoded entry is found under its key, whatever follows. */
  lemma EncodedFileInfoMembers(f: FileInfo, extra: seq<Member>)
    ensures var item := Object(EncodeFileInfo(f) + extra);
      && Lookup(item, "version") == Some(Number(f.version))
      && Lookup(item, "path") == Some(String(f.path))
      && Lookup(item, "url") == Some(String(f.url))
      && Lookup(item, "isFolder") == Some(Bool(f.isFolder))
  {
    var ms := EncodeFileInfo(f);
    assert ms[0].key == "version" && ms[1].key == "path" && ms[2].key == "url" && ms[3].key == "isFolder";
    LookupAtPrefix(ms, extra, 0, "version");
    LookupAtPrefix(ms, extra, 1, "path");
    assert forall j :: 0 <= j < 2 ==> ms[j].key != "url";
    LookupAtPrefix(ms, extra, 2, "url");
    assert forall j :: 0 <= j < 3 ==> ms[j].key != "isFolder";
    LookupAtPrefix(ms, extra, 3, "isFolder");
  }

  /** A well-formed listing element decodes to the entry it describes, whatever
      the defaults and whatever members follow it. */
  lemma DecodeFileInfoRoundTrip(f: FileInfo, blank: FileInfo, extra: seq<Member>)
    ensures DecodeFileInfo(Object(EncodeFileInfo(f) + extra), blank) == f
  {
    EncodedFileInfoMembers(f, extra);
  }

  /** A well-formed changeset element sets exactly the id and the author. */
  lemma DecodeChangesetRoundTrip(c: ChangesetInfo, blank: ChangesetInfo, extra: seq<Member>)
    ensures DecodeChangeset(Object(EncodeChangeset(c) + extra), blank)
      == blank.(changesetId := c.changesetId, author := c.author)
  {
    var ms := EncodeChangeset(c);
    LookupAt(ms, 0, "changesetId");
    LookupAt(ms, 1, "author");
    LookupIgnoresLaterMembers(ms, extra, "changesetId");
    LookupIgnoresLaterMembers(ms, extra, "author");
    var author := Object([Member("displayName", String(c.author))]);
    LookupAt(author.members, 0, "displayName");
  }

  /** The members of an encoded change, and of its `item`, are found under their keys. */
  lemma EncodedChangeMembers(c: ChangesetChange, extra: seq<Member>)
    ensures var v := Object(EncodeChange(c) + extra);
      var item := Object([Member("version", Number(c.version)), Member("path", String(c.path)),
                          Member("url", String(c.url))]);
      && Lookup(v, "changeType") == Some(String(c.changeType))
      && Lookup(v, "item") == Some(item)
      && Lookup(item, "version") == Some(Number(c.version))
      && Lookup(item, "path") == Some(String(c.path))
      && Lookup(item, "url") == Some(String(c.url))
  {
    var ms := EncodeChange(c);
    LookupAtPrefix(ms, extra, 0, "changeType");
    LookupAtPrefix(ms, extra, 1, "item");
    var item := Object([Member("version", Number(c.version)), Member("path", String(c.path)),
                        Member("url", String(c.url))]);
    LookupAt(item.members, 0, "version");
    LookupAt(item.members, 1, "path");
    LookupAt(item.members, 2, "url");
  }

  /** A well-formed change element decodes to the change it describes. */
  lemma DecodeChangeRoundTrip(c: ChangesetChange, blank: ChangesetChange, extra: seq<Member>)
    ensures DecodeChange(Object(EncodeChange(c) + extra), blank) == c
  {
    EncodedChangeMembers(c, extra);
  }

  /** An `author` without a `displayName` leaves the author at its default
      while the id is still taken. */
  lemma AuthorWithoutDisplayName(id: int, blank: ChangesetInfo)
    ensures DecodeChangeset(Object([Member("changesetId", Number(id)), Member("author", Object([]))]), blank)
      == blank.(changesetId := id)
  {
    var ms := [Member("changesetId", Number(id)), Member("author", Object([]))];
    LookupAt(ms, 0, "changesetId");
    LookupAt(ms, 1, "author");
  }
}
