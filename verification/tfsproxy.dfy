/** The REST proxy (TfsProxy): the endpoint URLs it builds, the status gate
    every JSON call goes through, the decoding of each operation's response,
    and the download URL and file name of the two file operations. The HTTP
    transaction is not re-run here: each operation takes the response `exec`
    returned as an observation, and the JSON parser and URL encoder it calls
    are function-typed parameters. */
module TfsProxy {
  import opened Wrappers
  import opened Strings
  import opened Json
  import opened TfsModels
  import Http

  /** The configured server: base URL, branch path and NTLM credentials. */
  datatype Proxy = Proxy(baseUrl: string, branch: string, username: string, password: string)

  const JsonContentType: string := "application/json"

  /** 200 OK and 201 Created are the only statuses whose body is used. */
  predicate IsSuccess(status: int) {
    status == 200 || status == 201
  }

  // ---------------------------------------------------------------------
  // sendReq

  /** What `sendReq` configured and sent, the parsed body it hands back (None
      is its NULL), and the lines it logged. */
  datatype Sent = Sent(request: Http.Request, options: Http.Options, data: Option<Value>, log: seq<string>)

  /** The line logged for a refused status: URL, status code and body. */
  function StatusFailureLine(url: string, status: int, body: string): string {
    "Made request to " + CString(url) + ", and status code is " + IntToDecimal(status) + "\n" + CString(body) + "\n"
  }

  /** The request `sendReq` hands to `exec`: quiet, NTLM, JSON content. */
  function JsonRequest(proxy: Proxy, url: string): Http.Request {
    Http.SetContent(Http.SetNtlm(Http.NewRequest(url, false), proxy.username, proxy.password), JsonContentType)
  }

  /** `sendReq`: an NTLM-authenticated JSON request whose body is parsed only
      when the status is 200 or 201. `resp` is what `exec` returned; the log
      is the lines `sendReq` writes itself (see `FailedTransferLogged` for
      the lines `exec` writes before them). */
  function SendReq(proxy: Proxy, verb: string, url: string, body: Option<string>,
                   resp: Http.Response, parse: string -> Option<Value>): (r: Sent)
    ensures r.data.Some? ==> IsSuccess(resp.statusCode)
    ensures IsSuccess(resp.statusCode) ==> r.data == parse(CString(resp.body)) && r.log == []
    ensures !IsSuccess(resp.statusCode) ==> r.data.None? && |r.log| == 1
    ensures r.request.url == url && !r.request.verbose
    ensures r.request.auth == Http.Ntlm(proxy.username, proxy.password)
    ensures r.request.headers == ["Content-Type: " + JsonContentType]
    ensures r.options == Http.ExecOptions(r.request, verb, body)
  {
    var req := JsonRequest(proxy, url);
    var options := Http.ExecOptions(req, verb, body);
    if !IsSuccess(resp.statusCode) then
      Sent(req, options, None, [StatusFailureLine(url, resp.statusCode, resp.body)])
    else
      Sent(req, options, parse(CString(resp.body)), [])
  }

  /** The failure line names the URL and the status code. */
  lemma StatusFailureLineNames(url: string, status: int, body: string)
    ensures Contains(StatusFailureLine(url, status, body), CString(url))
    ensures Contains(StatusFailureLine(url, status, body), IntToDecimal(status))
  {
    var u, d := CString(url), IntToDecimal(status);
    var p1, p2, nl, b := "Made request to ", ", and status code is ", "\n", CString(body);
    ContainsSuffix(p1, u);
    ContainsExtend(p1 + u, p2, u);
    ContainsExtend(p1 + u + p2, d, u);
    ContainsExtend(p1 + u + p2 + d, nl, u);
    ContainsExtend(p1 + u + p2 + d + nl, b, u);
    ContainsExtend(p1 + u + p2 + d + nl + b, nl, u);
    ContainsSuffix(p1 + u + p2, d);
    ContainsExtend(p1 + u + p2 + d, nl, d);
    ContainsExtend(p1 + u + p2 + d + nl, b, d);
    ContainsExtend(p1 + u + p2 + d + nl + b, nl, d);
  }

  /** `sendReq` reports a refused status in one line of its own, naming the
      URL and the status code. */
  lemma RefusedStatusLogged(proxy: Proxy, verb: string, url: string, body: Option<string>,
                            resp: Http.Response, parse: string -> Option<Value>)
    requires !IsSuccess(resp.statusCode)
    ensures var r := SendReq(proxy, verb, url, body, resp, parse);
      |r.log| == 1 && Contains(r.log[0], CString(url)) && Contains(r.log[0], IntToDecimal(resp.statusCode))
  {
    var r := SendReq(proxy, verb, url, body, resp, parse);
    assert r.log == [StatusFailureLine(url, resp.statusCode, resp.body)];
    StatusFailureLineNames(url, resp.statusCode, resp.body);
  }

  /** A transfer that failed and left a refused status is logged twice:
      first by `exec`, then by `sendReq`. */
  lemma FailedTransferLogged(proxy: Proxy, verb: string, url: string, body: Option<string>,
                             executor: Http.MultiHandle, addCode: int, trace: seq<Http.Poll>,
                             events: seq<Http.Event>, statusCode: int, parse: string -> Option<Value>)
    requires var ex := Http.Exec(JsonRequest(proxy, url), verb, body, executor, addCode, trace, events, statusCode);
      ex.perform.result.Some? && ex.perform.result.value != Http.CurleOk && !IsSuccess(ex.response.value.statusCode)
    ensures var ex := Http.Exec(JsonRequest(proxy, url), verb, body, executor, addCode, trace, events, statusCode);
      var sent := SendReq(proxy, verb, url, body, ex.response.value, parse);
      && sent.data.None?
      && ex.log + sent.log == [Http.FailureMessage, StatusFailureLine(url, ex.response.value.statusCode, ex.response.value.body)]
  {
    var ex := Http.Exec(JsonRequest(proxy, url), verb, body, executor, addCode, trace, events, statusCode);
    assert ex.log == [Http.FailureMessage];
  }

  /** Through the NULL multi handle a request never runs: `exec` logs its
      failure, the status reads 0, and `sendReq` logs the refusal with an
      empty body. */
  lemma UnregisteredRequestLogged(proxy: Proxy, verb: string, url: string, body: Option<string>,
                                  addCode: int, trace: seq<Http.Poll>, events: seq<Http.Event>,
                                  statusCode: int, parse: string -> Option<Value>)
    ensures var ex := Http.Exec(JsonRequest(proxy, url), verb, body, Http.NullMulti, addCode, trace, events, statusCode);
      var sent := SendReq(proxy, verb, url, body, ex.response.value, parse);
      && sent.data.None?
      && ex.log + sent.log == [Http.FailureMessage, StatusFailureLine(url, 0, "")]
  {
    var ex := Http.Exec(JsonRequest(proxy, url), verb, body, Http.NullMulti, addCode, trace, events, statusCode);
    FailedTransferLogged(proxy, verb, url, body, Http.NullMulti, addCode, trace, events, statusCode, parse);
  }

  // ---------------------------------------------------------------------
  // Endpoint URLs

  /** The listing endpoint of `GetPathInfo`. */
  function PathInfoUrl(proxy: Proxy, project: string, path: string, urlEncode: string -> string): string {
    proxy.baseUrl + "/" + project + "/_apis/tfvc/items?scopePath=" + urlEncode(path) + "&recursionLevel=OneLevel"
  }

  /** The scope a listing URL carries, read back by stripping the fixed parts. */
  function ScopeOfPathInfoUrl(proxy: Proxy, project: string, url: string): Option<string> {
    var head := proxy.baseUrl + "/" + project + "/_apis/tfvc/items?scopePath=";
    var tail := "&recursionLevel=OneLevel";
    if |head| + |tail| <= |url| && url[..|head|] == head && url[|url| - |tail|..] == tail
    then Some(url[|head|..|url| - |tail|])
    else None
  }

  lemma PathInfoUrlRoundTrip(proxy: Proxy, project: string, path: string, urlEncode: string -> string)
    ensures ScopeOfPathInfoUrl(proxy, project, PathInfoUrl(proxy, project, path, urlEncode)) == Some(urlEncode(path))
  {
    var head := proxy.baseUrl + "/" + project + "/_apis/tfvc/items?scopePath=";
    var tail := "&recursionLevel=OneLevel";
    var url := PathInfoUrl(proxy, project, path, urlEncode);
    assert url == head + urlEncode(path) + tail;
    assert url[..|head|] == head;
    assert url[|url| - |tail|..] == tail;
    assert url[|head|..|url| - |tail|] == urlEncode(path);
  }

  /** The parts of the query `GetChangesAfter` encodes, around the starting
      changeset and the branch. */
  const FromIdKey: string := "/changesets?searchCriteria.fromId="
  const ItemPathKey: string := "&searchCriteria.itemPath="
  const OrderById: string := "&$orderby=id asc"

  /** The query `GetChangesAfter` encodes: changesets from `changeset` on,
      under the branch, in ascending id order. */
  function ChangesAfterQuery(proxy: Proxy, changeset: string): string {
    FromIdKey + changeset + ItemPathKey + proxy.branch + OrderById
  }

  /** What a server reads from such a query: the starting changeset, up to
      the first `&`, and the item path between its key and the ordering. */
  function ChangesAfterCriteria(query: string): Option<(string, string)> {
    if |query| >= |FromIdKey| + |OrderById| && FromIdKey <= query && query[|query| - |OrderById|..] == OrderById then
      var middle := query[|FromIdKey|..|query| - |OrderById|];
      var from := CutAtFirst(middle, '&');
      var rest := middle[|from|..];
      if ItemPathKey <= rest then Some((from, rest[|ItemPathKey|..])) else None
    else None
  }

  /** Between the two fixed ends the criterion runs to the first `&`, and
      the item path follows its key. */
  lemma ChangesAfterCriteriaOf(from: string, tail: string)
    requires '&' !in from
    requires ItemPathKey <= tail
    ensures ChangesAfterCriteria(FromIdKey + (from + tail) + OrderById) == Some((from, tail[|ItemPathKey|..]))
  {
    var middle := from + tail;
    Framed(FromIdKey, middle, OrderById);
    CutBeforeMark(from, tail, '&');
    assert middle[|from|..] == tail;
  }

  /** A changeset without `&` and the branch are read back from the query;
      a changeset with one would end the criterion early. */
  lemma ChangesAfterQueryRoundTrip(proxy: Proxy, changeset: string)
    requires '&' !in changeset
    ensures ChangesAfterCriteria(ChangesAfterQuery(proxy, changeset)) == Some((changeset, proxy.branch))
  {
    var tail := ItemPathKey + proxy.branch;
    assert ChangesAfterQuery(proxy, changeset) == FromIdKey + (changeset + tail) + OrderById;
    assert tail[|ItemPathKey|..] == proxy.branch;
    ChangesAfterCriteriaOf(changeset, tail);
  }

  /** The change-list endpoint: the base URL followed by the encoded query,
      whose criteria name the starting changeset and the branch. */
  function ChangesAfterUrl(proxy: Proxy, changeset: string, urlEncode: string -> string): (url: string)
    ensures proxy.baseUrl <= url
    ensures url[|proxy.baseUrl|..] == urlEncode(ChangesAfterQuery(proxy, changeset))
    ensures '&' !in changeset ==> ChangesAfterCriteria(ChangesAfterQuery(proxy, changeset)) == Some((changeset, proxy.branch))
  {
    if '&' in changeset then proxy.baseUrl + urlEncode(ChangesAfterQuery(proxy, changeset))
    else
      ChangesAfterQueryRoundTrip(proxy, changeset);
      proxy.baseUrl + urlEncode(ChangesAfterQuery(proxy, changeset))
  }

  /** The changeset endpoint of `GetChangesetComment`: the id printed with `%d`. */
  function ChangesetUrl(proxy: Proxy, id: int): string {
    proxy.baseUrl + "/changesets/" + IntToDecimal(id)
  }

  /** The suffix of the change-list endpoint: at most 2000 entries. */
  const ChangesSuffix: string := "/changes?%24top=2000"

  /** The change-list endpoint of `GetChangesetChanges`. */
  function ChangesetChangesUrl(proxy: Proxy, id: int): string {
    ChangesetUrl(proxy, id) + ChangesSuffix
  }

  /** The changeset id a changeset or change-list URL names, read back: the
      text after `/changesets/`, less the change-list suffix if it ends in it. */
  function ChangesetIdOfUrl(proxy: Proxy, url: string): Option<int> {
    var head := proxy.baseUrl + "/changesets/";
    if |url| < |head| || url[..|head|] != head then None
    else
      var rest := url[|head|..];
      if |rest| >= |ChangesSuffix| && rest[|rest| - |ChangesSuffix|..] == ChangesSuffix
      then ParseDecimal(rest[..|rest| - |ChangesSuffix|])
      else ParseDecimal(rest)
  }

  /** `%d` output never ends in the change-list suffix: it holds no `/`. */
  lemma DecimalLacksSuffix(id: int)
    ensures var d := IntToDecimal(id);
      |d| >= |ChangesSuffix| ==> d[|d| - |ChangesSuffix|..] != ChangesSuffix
  {
    var d := IntToDecimal(id);
    if |d| >= |ChangesSuffix| {
      var k := |d| - |ChangesSuffix|;
      if k > 0 {
        assert d[k] == d[1..][k - 1];
      }
      assert d[k..][0] != ChangesSuffix[0];
    }
  }

  /** The changeset URL names the changeset it was built for. */
  lemma ChangesetUrlRoundTrip(proxy: Proxy, id: int)
    ensures ChangesetIdOfUrl(proxy, ChangesetUrl(proxy, id)) == Some(id)
  {
    var head := proxy.baseUrl + "/changesets/";
    var digits := IntToDecimal(id);
    IntToDecimalRoundTrip(id);
    DecimalLacksSuffix(id);
    var u := ChangesetUrl(proxy, id);
    assert u == head + digits;
    assert u[..|head|] == head;
    assert u[|head|..] == digits;
  }

  /** The change-list URL names the changeset it was built for. */
  lemma ChangesetChangesUrlRoundTrip(proxy: Proxy, id: int)
    ensures ChangesetIdOfUrl(proxy, ChangesetChangesUrl(proxy, id)) == Some(id)
  {
    var head := proxy.baseUrl + "/changesets/";
    var digits := IntToDecimal(id);
    IntToDecimalRoundTrip(id);
    var u := ChangesetChangesUrl(proxy, id);
    assert u == head + (digits + ChangesSuffix);
    assert u[..|head|] == head;
    var rest := u[|head|..];
    assert rest == digits + ChangesSuffix;
    assert rest[|rest| - |ChangesSuffix|..] == ChangesSuffix;
    assert rest[..|rest| - |ChangesSuffix|] == digits;
  }

  // ---------------------------------------------------------------------
  // GetPathInfo

  /** The children of a listing, as a reference definition: every element
      decoded, in array order, except those whose path is the queried path. */
  function ListChildren(items: seq<Value>, path: string, blank: FileInfo): (r: seq<FileInfo>)
    ensures |r| <= |items|
    ensures forall k :: 0 <= k < |r| ==> r[k].path != path
    decreases |items|
  {
    if |items| == 0 then []
    else
      var f := DecodeFileInfo(items[|items| - 1], blank);
      ListChildren(items[..|items| - 1], path, blank) + (if f.path == path then [] else [f])
  }

  /** Listing a concatenation lists each part in turn: the filter keeps order. */
  lemma {:induction false} ListChildrenAppend(a: seq<Value>, b: seq<Value>, path: string, blank: FileInfo)
    ensures ListChildren(a + b, path, blank) == ListChildren(a, path, blank) + ListChildren(b, path, blank)
    decreases |b|
  {
    if |b| == 0 {
      assert a + b == a;
    } else {
      var front := b[..|b| - 1];
      assert (a + b)[..|a + b| - 1] == a + front;
      assert (a + b)[|a + b| - 1] == b[|b| - 1];
      ListChildrenAppend(a, front, path, blank);
    }
  }

  /** Every element of a listing, decoded, in order. */
  function DecodeAll(items: seq<Value>, blank: FileInfo): (r: seq<FileInfo>)
    ensures |r| == |items|
    decreases |items|
  {
    if |items| == 0 then [] else DecodeAll(items[..|items| - 1], blank) + [DecodeFileInfo(items[|items| - 1], blank)]
  }

  /** An entry is listed exactly when some element decodes to it and its path
      is not the queried one. */
  lemma {:induction false} ListChildrenMembers(items: seq<Value>, path: string, blank: FileInfo, f: FileInfo)
    ensures f in ListChildren(items, path, blank) <==> f.path != path && f in DecodeAll(items, blank)
    decreases |items|
  {
    if |items| > 0 {
      var front := items[..|items| - 1];
      var last := DecodeFileInfo(items[|items| - 1], blank);
      ListChildrenMembers(front, path, blank, f);
      assert ListChildren(items, path, blank) == ListChildren(front, path, blank) + (if last.path == path then [] else [last]);
      assert DecodeAll(items, blank) == DecodeAll(front, blank) + [last];
    }
  }

  /** An element without a string `path` keeps the default path, so it is
      dropped only when the queried path equals that default. */
  lemma PathlessElementKept(item: Value, path: string, blank: FileInfo)
    requires StringAt(item, "path").None?
    ensures ListChildren([item], path, blank) == if path == blank.path then [] else [DecodeFileInfo(item, blank)]
  {
    assert [item][..0] == [];
  }

  /** The listing loop of `GetPathInfo`: decode `version` and `path`, skip the
      self entry, then decode `url` and `isFolder` and append. */
  method CollectChildren(items: seq<Value>, path: string, blank: FileInfo) returns (files: seq<FileInfo>)
    ensures files == ListChildren(items, path, blank)
  {
    files := [];
    for i := 0 to |items|
      invariant files == ListChildren(items[..i], path, blank)
    {
      assert items[..i + 1][..i] == items[..i];
      var item := items[i];
      var file := blank;
      var version := NumberAt(item, "version");
      if version.Some? {
        file := file.(version := version.value);
      }
      var p := StringAt(item, "path");
      if p.Some? {
        file := file.(path := p.value);
      }
      if file.path == path {
        continue;
      }
      var u := StringAt(item, "url");
      if u.Some? {
        file := file.(url := u.value);
      }
      file := file.(isFolder := false);
      if TrueAt(item, "isFolder") {
        file := file.(isFolder := true);
      }
      assert file == DecodeFileInfo(item, blank);
      files := files + [file];
    }
    assert items[..|items|] == items;
  }

  /** The entries of a listing response; empty when the request failed or
      `value` is missing or not an array. */
  function ListingOf(data: Option<Value>, path: string, blank: FileInfo): (files: seq<FileInfo>)
    ensures data.None? ==> files == []
    ensures data.Some? && ArrayAt(data.value, "value").None? ==> files == []
    ensures data.Some? && ArrayAt(data.value, "value").Some? ==>
      files == ListChildren(ArrayAt(data.value, "value").value, path, blank)
  {
    if data.None? then []
    else match ArrayAt(data.value, "value")
      case None => []
      case Some(items) => ListChildren(items, path, blank)
  }

  /** `GetPathInfo`: the request sent and the children listed. */
  function GetPathInfo(proxy: Proxy, project: string, path: string, urlEncode: string -> string,
                       resp: Http.Response, parse: string -> Option<Value>, blank: FileInfo): (r: (Sent, seq<FileInfo>))
    ensures r.0 == SendReq(proxy, "GET", PathInfoUrl(proxy, project, path, urlEncode), None, resp, parse)
    ensures !IsSuccess(resp.statusCode) ==> r.1 == []
    ensures r.1 == ListingOf(r.0.data, path, blank)
    ensures forall k :: 0 <= k < |r.1| ==> r.1[k].path != path
  {
    var sent := SendReq(proxy, "GET", PathInfoUrl(proxy, project, path, urlEncode), None, resp, parse);
    (sent, ListingOf(sent.data, path, blank))
  }

  /** A listing of encoded entries. */
  function EncodeListing(entries: seq<FileInfo>): (items: seq<Value>)
    ensures |items| == |entries|
    ensures forall k :: 0 <= k < |entries| ==> items[k] == Object(EncodeFileInfo(entries[k]))
    decreases |entries|
  {
    if |entries| == 0 then []
    else EncodeListing(entries[..|entries| - 1]) + [Object(EncodeFileInfo(entries[|entries| - 1]))]
  }

  /** The entries of `entries` whose path is not `path`, in order. */
  function WithoutSelf(entries: seq<FileInfo>, path: string): seq<FileInfo>
    decreases |entries|
  {
    if |entries| == 0 then []
    else
      var e := entries[|entries| - 1];
      WithoutSelf(entries[..|entries| - 1], path) + (if e.path == path then [] else [e])
  }

  /** A single encoded entry decodes to itself. */
  lemma DecodeEncodedEntry(e: FileInfo, blank: FileInfo)
    ensures DecodeFileInfo(Object(EncodeFileInfo(e)), blank) == e
  {
    assert EncodeFileInfo(e) + [] == EncodeFileInfo(e);
    DecodeFileInfoRoundTrip(e, blank, []);
  }

  /** Listing what the server describes yields those entries minus the self
      entry, unchanged and in order. */
  lemma {:induction false} ListingRoundTrip(entries: seq<FileInfo>, path: string, blank: FileInfo)
    ensures ListChildren(EncodeListing(entries), path, blank) == WithoutSelf(entries, path)
    decreases |entries|
  {
    if |entries| > 0 {
      var n := |entries|;
      var init, last := entries[..n - 1], entries[n - 1];
      var items := EncodeListing(entries);
      var kept := if last.path == path then [] else [last];
      assert items == EncodeListing(init) + [Object(EncodeFileInfo(last))];
      assert items[..n - 1] == EncodeListing(init);
      assert items[n - 1] == Object(EncodeFileInfo(last));
      DecodeEncodedEntry(last, blank);
      assert ListChildren(items, path, blank) == ListChildren(EncodeListing(init), path, blank) + kept;
      ListingRoundTrip(init, path, blank);
      assert WithoutSelf(entries, path) == WithoutSelf(init, path) + kept;
    }
  }

  /** A refused listing (HTTP 403, say) lists nothing and logs one line. */
  lemma ForbiddenListingIsEmpty(proxy: Proxy, project: string, path: string, urlEncode: string -> string,
                                body: string, headers: seq<string>, parse: string -> Option<Value>, blank: FileInfo)
    ensures var r := GetPathInfo(proxy, project, path, urlEncode, Http.Response(body, headers, 403), parse, blank);
      r.1 == [] && |r.0.log| == 1
  {
  }

  // ---------------------------------------------------------------------
  // GetChangesAfter, GetChangesetComment, GetChangesetChanges

  /** The outcome of an operation that fills caller-owned data: the value
      returned, the data as left behind, and what `sendReq` did. */
  datatype Fetched<T> = Fetched(ok: bool, value: T, sent: Sent)

  /** `GetChangesAfter`: one changeset appended per element of `value`,
      malformed elements included; `count` is only a capacity hint. */
  function GetChangesAfter(proxy: Proxy, changeset: string, changes: seq<ChangesetInfo>, urlEncode: string -> string,
                           resp: Http.Response, parse: string -> Option<Value>, blank: ChangesetInfo): (r: Fetched<seq<ChangesetInfo>>)
    ensures r.sent == SendReq(proxy, "GET", ChangesAfterUrl(proxy, changeset, urlEncode), None, resp, parse)
    ensures r.ok <==> r.sent.data.Some? && ArrayAt(r.sent.data.value, "value").Some?
    ensures !r.ok ==> r.value == changes
    ensures r.ok ==>
      var items := ArrayAt(r.sent.data.value, "value").value;
      && |r.value| == |changes| + |items|
      && r.value[..|changes|] == changes
      && forall k :: 0 <= k < |items| ==> r.value[|changes| + k] == DecodeChangeset(items[k], blank)
  {
    var sent := SendReq(proxy, "GET", ChangesAfterUrl(proxy, changeset, urlEncode), None, resp, parse);
    if sent.data.None? then Fetched(false, changes, sent)
    else match ArrayAt(sent.data.value, "value")
      case None => Fetched(false, changes, sent)
      case Some(items) => Fetched(true, AppendDecoded(changes, items, v => DecodeChangeset(v, blank)), sent)
  }

  /** `GetChangesetComment`: only the comment may change, and only when the
      response has a string `comment`. */
  function GetChangesetComment(proxy: Proxy, changeset: ChangesetInfo, resp: Http.Response,
                               parse: string -> Option<Value>): (r: Fetched<ChangesetInfo>)
    ensures r.sent == SendReq(proxy, "GET", ChangesetUrl(proxy, changeset.changesetId), None, resp, parse)
    ensures r.ok <==> r.sent.data.Some?
    ensures r.value.(comment := changeset.comment) == changeset
    ensures r.value.comment != changeset.comment ==> r.ok && StringAt(r.sent.data.value, "comment").Some?
    ensures r.ok && StringAt(r.sent.data.value, "comment").Some? ==>
      r.value.comment == StringAt(r.sent.data.value, "comment").value
  {
    var sent := SendReq(proxy, "GET", ChangesetUrl(proxy, changeset.changesetId), None, resp, parse);
    match sent.data
    case None => Fetched(false, changeset, sent)
    case Some(data) => Fetched(true, changeset.(comment := StringAt(data, "comment").GetOr(changeset.comment)), sent)
  }

  /** `GetChangesetChanges`: one change appended to the changeset's list per
      element of `value`; nothing else about the changeset changes. */
  function GetChangesetChanges(proxy: Proxy, changeset: ChangesetInfo, resp: Http.Response,
                               parse: string -> Option<Value>, blank: ChangesetChange): (r: Fetched<ChangesetInfo>)
    ensures r.sent == SendReq(proxy, "GET", ChangesetChangesUrl(proxy, changeset.changesetId), None, resp, parse)
    ensures r.ok <==> r.sent.data.Some? && ArrayAt(r.sent.data.value, "value").Some?
    ensures r.value.(changes := changeset.changes) == changeset
    ensures !r.ok ==> r.value == changeset
    ensures r.ok ==>
      var items := ArrayAt(r.sent.data.value, "value").value;
      && |r.value.changes| == |changeset.changes| + |items|
      && r.value.changes[..|changeset.changes|] == changeset.changes
      && forall k :: 0 <= k < |items| ==> r.value.changes[|changeset.changes| + k] == DecodeChange(items[k], blank)
  {
    var sent := SendReq(proxy, "GET", ChangesetChangesUrl(proxy, changeset.changesetId), None, resp, parse);
    if sent.data.None? then Fetched(false, changeset, sent)
    else match ArrayAt(sent.data.value, "value")
      case None => Fetched(false, changeset, sent)
      case Some(items) =>
        var changes := AppendDecoded(changeset.changes, items, v => DecodeChange(v, blank));
        assert forall k :: 0 <= k < |items| ==> changes[|changeset.changes| + k] == DecodeChange(items[k], blank);
        Fetched(true, changeset.(changes := changes), sent)
  }

  // The `count` member as the code uses it: `vector::reserve(count->valueint)`.
  // A negative `valueint` becomes a huge `size_t`, and `reserve` then throws
  // `std::length_error`, which nothing catches.

  /** An operation that may end in an uncaught exception instead of returning. */
  datatype Outcome<T> = Returned(fetched: T) | LengthError

  /** `reserve` throws: `count` is a number below zero. */
  predicate ReserveThrows(data: Value) {
    NumberAt(data, "count").Some? && NumberAt(data, "count").value < 0
  }

  /** `GetChangesAfter` as written, with the `reserve` call before `value` is read. */
  function GetChangesAfterAsWritten(proxy: Proxy, changeset: string, changes: seq<ChangesetInfo>, urlEncode: string -> string,
                                    resp: Http.Response, parse: string -> Option<Value>, blank: ChangesetInfo)
    : (r: Outcome<Fetched<seq<ChangesetInfo>>>)
    ensures var fixed := GetChangesAfter(proxy, changeset, changes, urlEncode, resp, parse, blank);
      r == if fixed.sent.data.Some? && ReserveThrows(fixed.sent.data.value) then LengthError else Returned(fixed)
  {
    var fixed := GetChangesAfter(proxy, changeset, changes, urlEncode, resp, parse, blank);
    if fixed.sent.data.Some? && ReserveThrows(fixed.sent.data.value) then LengthError else Returned(fixed)
  }

  /** `GetChangesetChanges` as written, with the same `reserve` call. */
  function GetChangesetChangesAsWritten(proxy: Proxy, changeset: ChangesetInfo, resp: Http.Response,
                                        parse: string -> Option<Value>, blank: ChangesetChange)
    : (r: Outcome<Fetched<ChangesetInfo>>)
    ensures var fixed := GetChangesetChanges(proxy, changeset, resp, parse, blank);
      r == if fixed.sent.data.Some? && ReserveThrows(fixed.sent.data.value) then LengthError else Returned(fixed)
  {
    var fixed := GetChangesetChanges(proxy, changeset, resp, parse, blank);
    if fixed.sent.data.Some? && ReserveThrows(fixed.sent.data.value) then LengthError else Returned(fixed)
  }

  /** The response `{"count": -1, "value": []}`. */
  function NegativeCountBody(): Value {
    Object([Member("count", Number(-1)), Member("value", Array([]))])
  }

  /** A 200 response with a negative `count` aborts both operations as
      written, while the intended reading returns true and leaves the data as
      it was. */
  lemma NegativeCountAborts(proxy: Proxy, changeset: string, changes: seq<ChangesetInfo>, urlEncode: string -> string,
                            info: ChangesetInfo, blank: ChangesetInfo, blankChange: ChangesetChange, body: string)
    ensures var resp := Http.Response(body, [], 200);
      var parse := (s: string) => Some(NegativeCountBody());
      && GetChangesAfterAsWritten(proxy, changeset, changes, urlEncode, resp, parse, blank) == LengthError
      && GetChangesAfter(proxy, changeset, changes, urlEncode, resp, parse, blank).ok
      && GetChangesAfter(proxy, changeset, changes, urlEncode, resp, parse, blank).value == changes
      && GetChangesetChangesAsWritten(proxy, info, resp, parse, blankChange) == LengthError
      && GetChangesetChanges(proxy, info, resp, parse, blankChange).ok
      && GetChangesetChanges(proxy, info, resp, parse, blankChange).value == info
  {
    var ms := NegativeCountBody().members;
    LookupAt(ms, 0, "count");
    LookupAt(ms, 1, "value");
  }

  // ---------------------------------------------------------------------
  // GetChangesetFile and GetDirectFile

  const WebConfig: string := "Web.config"
  const VersionParam: string := "version="

  /** Everything before the first `version=`, then `version=` and the requested
      revision; the URL is kept as it is when it has no `version=`. */
  function RewriteVersion(url: string, id: string): (r: string)
    ensures Find(url, VersionParam).None? ==> r == url
    ensures Find(url, VersionParam).Some? ==>
      var k := Find(url, VersionParam).value;
      |r| == k + |VersionParam| + |id| && r[..k] == url[..k] && r[k..] == VersionParam + id
  {
    match Find(url, VersionParam)
    case None => url
    case Some(k) => url[..k] + VersionParam + id
  }

  /** The revision a URL asks for: whatever follows its first `version=`. */
  function RequestedVersion(url: string): Option<string> {
    match Find(url, VersionParam)
    case None => None
    case Some(k) => Some(url[k + |VersionParam|..])
  }

  /** After a rewrite the URL asks for exactly the requested revision, and a
      second rewrite simply replaces the first. */
  lemma RewriteVersionRoundTrip(url: string, id: string, id2: string)
    requires Find(url, VersionParam).Some?
    ensures Find(RewriteVersion(url, id), VersionParam) == Find(url, VersionParam)
    ensures RequestedVersion(RewriteVersion(url, id)) == Some(id)
    ensures RewriteVersion(RewriteVersion(url, id), id2) == RewriteVersion(url, id2)
  {
    var k := Find(url, VersionParam).value;
    var r := RewriteVersion(url, id);
    assert r == url[..k] + VersionParam + id;
    assert r[..k + |VersionParam|] == url[..k + |VersionParam|];
    forall j | 0 <= j < k
      ensures !OccursAt(r, VersionParam, j)
    {
      assert !OccursAt(url, VersionParam, j);
      assert r[j..j + |VersionParam|] == url[j..j + |VersionParam|];
    }
    assert r[k..k + |VersionParam|] == VersionParam;
    FindIsFirst(r, VersionParam, k);
    assert r[k + |VersionParam|..] == id;
    assert r[..k] == url[..k];
  }

  /** The download URL of `GetChangesetFile`. Paths naming `Web.config` are
      fetched by an item query (the server refuses them in the URL path);
      any other file uses the server's URL with its revision rewritten. */
  function ChangesetFileUrl(proxy: Proxy, change: ChangesetChange, id: string): (r: string)
    ensures Contains(change.path, WebConfig) ==>
      |change.path| > 0 &&
      r == proxy.baseUrl + "/items?path=%24" + change.path[1..] + "&versionType=Changeset&version=" + id
    ensures !Contains(change.path, WebConfig) ==> r == RewriteVersion(change.url, id)
  {
    if Contains(change.path, WebConfig) then
      proxy.baseUrl + "/items?path=%24" + change.path[1..] + "&versionType=Changeset&version=" + id
    else RewriteVersion(change.url, id)
  }

  /** The text after the last `/`; empty when there is none. */
  function LastSegment(path: string): (r: string)
    ensures '/' !in path ==> r == ""
    ensures '/' in path ==> '/' !in r && |r| < |path| && path[|path| - |r| - 1] == '/' && path[|path| - |r|..] == r
  {
    match LastIndexOf(path, '/')
    case None => ""
    case Some(i) => path[i + 1..]
  }

  /** A request for a file download: the URL, NTLM, no extra headers. */
  function DownloadRequest(proxy: Proxy, url: string): (req: Http.Request)
    ensures req.url == url && req.auth == Http.Ntlm(proxy.username, proxy.password)
    ensures req.headers == [] && !req.verbose
  {
    Http.SetNtlm(Http.NewRequest(url, false), proxy.username, proxy.password)
  }

  /** A download: the request made, the local file name `get_file` is
      given (its C-string view), and what `get_file` returned and did. */
  datatype Download = Download(request: Http.Request, filename: string, fetched: (bool, Option<Http.FileTransfer>))

  /** `GetChangesetFile`: requests the revision for the file named by the
      path's last segment, and returns `get_file`'s answer, true exactly when
      that file could be opened for writing. The transfer goes through
      `executor` (`Http.NullMulti` as written, see `DownloadsAsWritten`). */
  function GetChangesetFile(proxy: Proxy, change: ChangesetChange, id: string, opens: string -> bool,
                            executor: Http.MultiHandle, addCode: int, trace: seq<Http.Poll>): (r: Download)
    ensures r.request == DownloadRequest(proxy, ChangesetFileUrl(proxy, change, id))
    ensures r.filename == CString(LastSegment(change.path))
    ensures r.fetched == Http.GetFile(r.request, opens(r.filename), executor, addCode, trace)
    ensures r.fetched.0 <==> opens(r.filename)
  {
    var req := DownloadRequest(proxy, ChangesetFileUrl(proxy, change, id));
    var filename := CString(LastSegment(change.path));
    Download(req, filename, Http.GetFile(req, opens(filename), executor, addCode, trace))
  }

  /** The file name `GetDirectFile` derives: after the last `/`, for
      `last '?' - last '/' - 1` characters computed in `size_t`. */
  function DirectFileName(url: string): (r: string)
    ensures '/' !in url ==> r == ""
    ensures '/' in url ==> r <= url[LastIndexOf(url, '/').value + 1..]
  {
    match LastIndexOf(url, '/')
    case None => ""
    case Some(slash) => NameAfter(url, slash, LastIndexOf(url, '?'))
  }

  /** The name after the `/` at `slash`, cut by the `?` at `query` if any. */
  function NameAfter(url: string, slash: nat, query: Option<nat>): (r: string)
    requires slash < |url|
    ensures r <= url[slash + 1..]
  {
    match query
    case None => url[slash + 1..]
    case Some(q) => Substr(url, slash + 1, ToSize(q - slash - 1))
  }

  /** With both marks present the name is the one after the last `/`. */
  lemma DirectFileNameAfter(url: string, slash: nat, query: nat)
    requires LastIndexOf(url, '/') == Some(slash) && LastIndexOf(url, '?') == Some(query)
    ensures DirectFileName(url) == NameAfter(url, slash, Some(query))
  {
  }

  /** With a `?`, the name is a substring whose count is the `size_t` difference. */
  lemma NameAfterQuery(url: string, slash: nat, query: nat)
    requires slash < |url|
    ensures NameAfter(url, slash, Some(query)) == Substr(url, slash + 1, ToSize(query - (slash + 1)))
  {
  }

  /** The last `?` after the last `/`: the count is exact and the name stops
      before the `?`. */
  lemma DirectFileNameQuery(url: string, slash: nat, query: nat)
    requires |url| < SizeModulus
    requires LastIndexOf(url, '/') == Some(slash) && LastIndexOf(url, '?') == Some(query)
    requires slash < query
    ensures '?' in url[slash + 1..]
    ensures DirectFileName(url) == url[slash + 1..query]
  {
    assert url[slash + 1..][query - slash - 1] == '?';
    DirectFileNameAfter(url, slash, query);
    NameAfterQuery(url, slash, query);
    SubstrUpTo(url, slash + 1, query);
  }

  /** The last `?` before the last `/`: the count wraps to a huge `size_t`
      and the name runs to the end of the URL. */
  lemma DirectFileNameWrap(url: string, slash: nat, query: nat)
    requires |url| < SizeModulus
    requires LastIndexOf(url, '/') == Some(slash) && LastIndexOf(url, '?') == Some(query)
    requires query < slash
    ensures '?' !in url[slash + 1..]
    ensures DirectFileName(url) == url[slash + 1..]
  {
    AbsentFromLaterSlice(url, '?', query + 1, slash + 1);
    DirectFileNameAfter(url, slash, query);
    NameAfterQuery(url, slash, query);
    SubstrWrapped(url, slash + 1, query);
  }

  /** Without any `?` the name is the whole rest of the URL. */
  lemma DirectFileNameNoQuery(url: string, slash: nat)
    requires LastIndexOf(url, '/') == Some(slash) && LastIndexOf(url, '?').None?
    ensures '?' !in url[slash + 1..]
    ensures DirectFileName(url) == url[slash + 1..]
  {
    assert DirectFileName(url) == NameAfter(url, slash, None);
    AbsentFromLaterSlice(url, '?', 0, slash + 1);
  }

  /** The name is cut from what follows the last `/`, so it holds no `/`. */
  lemma DirectFileNameHasNoSlash(url: string, slash: nat)
    requires LastIndexOf(url, '/') == Some(slash)
    ensures '/' !in DirectFileName(url)
  {
    AbsentFromPrefix(DirectFileName(url), url[slash + 1..], '/');
  }

  /** With a query string after the last `/`, the name stops before the last
      `?`; otherwise (no `?`, or the last `?` before the last `/`, where the
      count wraps around) it is the whole rest of the URL. Either way it holds
      no `/`. */
  lemma DirectFileNameCases(url: string)
    requires |url| < SizeModulus
    requires '/' in url
    ensures var slash := LastIndexOf(url, '/').value;
      && ('?' in url[slash + 1..] ==> DirectFileName(url) == url[slash + 1..LastIndexOf(url, '?').value])
      && ('?' !in url[slash + 1..] ==> DirectFileName(url) == url[slash + 1..])
      && '/' !in DirectFileName(url)
  {
    var slash := LastIndexOf(url, '/').value;
    DirectFileNameHasNoSlash(url, slash);
    match LastIndexOf(url, '?')
    case None =>
      DirectFileNameNoQuery(url, slash);
    case Some(query) =>
      if query > slash {
        DirectFileNameQuery(url, slash, query);
      } else {
        DirectFileNameWrap(url, slash, query);
      }
  }

  /** `GetDirectFile`: the download of a URL into the file its name gives,
      through `executor` as for `GetChangesetFile`; `get_file`'s answer is
      dropped by the caller. */
  function GetDirectFile(proxy: Proxy, url: string, opens: string -> bool,
                         executor: Http.MultiHandle, addCode: int, trace: seq<Http.Poll>): (r: Download)
    ensures r.request == DownloadRequest(proxy, url)
    ensures r.filename == CString(DirectFileName(url))
    ensures r.fetched == Http.GetFile(r.request, opens(r.filename), executor, addCode, trace)
  {
    var req := DownloadRequest(proxy, url);
    var filename := CString(DirectFileName(url));
    Download(req, filename, Http.GetFile(req, opens(filename), executor, addCode, trace))
  }

  /** With the NULL multi handle the code passes, neither download reaches
      the network: an opened file is left empty and the failure only logged. */
  lemma DownloadsAsWritten(proxy: Proxy, change: ChangesetChange, id: string, url: string,
                           opens: string -> bool, addCode: int, trace: seq<Http.Poll>)
    ensures var d := GetChangesetFile(proxy, change, id, opens, Http.NullMulti, addCode, trace);
      d.fetched.1.Some? ==> d.fetched.1.value == Http.GetFileFpAsWritten(d.request, trace)
                            && d.fetched.1.value.perform.passes == 0 && d.fetched.0
    ensures var d := GetDirectFile(proxy, url, opens, Http.NullMulti, addCode, trace);
      d.fetched.1.Some? ==> d.fetched.1.value == Http.GetFileFpAsWritten(d.request, trace)
                            && d.fetched.1.value.perform.passes == 0
  {
    var d1 := GetChangesetFile(proxy, change, id, opens, Http.NullMulti, addCode, trace);
    Http.GetFileAsWritten(d1.request, opens(d1.filename), addCode, trace);
    var d2 := GetDirectFile(proxy, url, opens, Http.NullMulti, addCode, trace);
    Http.GetFileAsWritten(d2.request, opens(d2.filename), addCode, trace);
  }
}
