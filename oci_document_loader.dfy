/**
 * OCIDocumentLoader: lists the objects under a prefix of an Object Storage bucket page by page
 * and streams the text of each one. The Object Storage client is an abstract function from a
 * request to the page or the text it answers with; a read that throws is `None`.
 */
module DocumentLoader {
  import opened Common

  /** Namespace, bucket and prefix: the part every list request of one call shares. */
  datatype Scope = Scope(namespace: string, bucket: string, prefix: string)

  /** A ListObjectsRequest; `start` is unset on the first request. */
  datatype ListRequest = ListRequest(scope: Scope, start: Option<string>)

  /** The part of a ListObjectsResponse the loader reads: object names and the next start. */
  datatype ListPage = ListPage(names: seq<string>, nextStartWith: Option<string>)

  /** A GetObjectRequest. */
  datatype GetRequest = GetRequest(namespace: string, bucket: string, objectName: string)

  predicate EndsWithSlash(name: string) {
    |name| > 0 && name[|name| - 1] == '/'
  }

  /** toObjectNames: the page's names without those ending in "/", in page order. The filter
      looks only at the name, so a zero-byte object whose name does not end in "/" is kept,
      whatever the comment beside the filter says. */
  function ToObjectNames(names: seq<string>): (r: seq<string>)
    ensures |r| <= |names|
    ensures forall n :: n in r <==> n in names && !EndsWithSlash(n)
  {
    if names == [] then []
    else if EndsWithSlash(names[0]) then ToObjectNames(names[1..])
    else [names[0]] + ToObjectNames(names[1..])
  }

  /** Filtering distributes over concatenation, so the kept names keep their order. */
  lemma {:induction false} ToObjectNamesAppend(a: seq<string>, b: seq<string>)
    ensures ToObjectNames(a + b) == ToObjectNames(a) + ToObjectNames(b)
  {
    if a == [] {
      assert a + b == b;
    } else {
      assert (a + b)[0] == a[0] && (a + b)[1..] == a[1..] + b;
      ToObjectNamesAppend(a[1..], b);
    }
  }

  /** Only the name decides: a "directory" entry is dropped, and any name without a trailing
      "/" is kept, the empty name included, since a page entry carries no size to test. */
  lemma ToObjectNamesExamples()
    ensures ToObjectNames([""]) == [""]
    ensures ToObjectNames(["docs/", "docs/a.txt"]) == ["docs/a.txt"]
  {
    assert !EndsWithSlash("docs/a.txt") && EndsWithSlash("docs/");
    assert ["docs/", "docs/a.txt"][1..] == ["docs/a.txt"];
  }

  /** The chain of pages starting at `start` ends (a page without nextStartWith) within
      `fuel` requests. */
  ghost predicate EndsWithin(fetch: ListRequest -> ListPage, scope: Scope, start: Option<string>, fuel: nat)
    decreases fuel
  {
    && fuel > 0
    && var page := fetch(ListRequest(scope, start));
       page.nextStartWith == None || EndsWithin(fetch, scope, page.nextStartWith, fuel - 1)
  }

  /** The requests sent when listing from `start`: each follow-up starts at the previous
      page's nextStartWith, and the last page has none. */
  ghost function Chain(fetch: ListRequest -> ListPage, scope: Scope, start: Option<string>, fuel: nat)
    : (r: seq<ListRequest>)
    requires EndsWithin(fetch, scope, start, fuel)
    ensures 1 <= |r| <= fuel
    ensures r[0] == ListRequest(scope, start)
    decreases fuel
  {
    var page := fetch(ListRequest(scope, start));
    if page.nextStartWith == None then [ListRequest(scope, start)]
    else [ListRequest(scope, start)] + Chain(fetch, scope, page.nextStartWith, fuel - 1)
  }

  /** Each follow-up request starts at the previous page's nextStartWith, fetching stops at the
      first page without one, and a first page without one means a single request. */
  lemma {:induction false} ChainLinks(fetch: ListRequest -> ListPage, scope: Scope, start: Option<string>, fuel: nat)
    requires EndsWithin(fetch, scope, start, fuel)
    ensures var r := Chain(fetch, scope, start, fuel);
      && (forall j :: 0 <= j < |r| - 1 ==>
            fetch(r[j]).nextStartWith != None && r[j + 1] == ListRequest(scope, fetch(r[j]).nextStartWith))
      && fetch(r[|r| - 1]).nextStartWith == None
      && (fetch(ListRequest(scope, start)).nextStartWith == None ==> |r| == 1)
    decreases fuel
  {
    var page := fetch(ListRequest(scope, start));
    if page.nextStartWith != None {
      ChainLinks(fetch, scope, page.nextStartWith, fuel - 1);
      var r := Chain(fetch, scope, start, fuel);
      assert r[1..] == Chain(fetch, scope, page.nextStartWith, fuel - 1);
    }
  }

  /** The filtered names of the pages answering `requests`, in page order: never a name ending
      in "/". */
  function Listed(fetch: ListRequest -> ListPage, requests: seq<ListRequest>): (r: seq<string>)
    ensures forall n :: n in r ==> !EndsWithSlash(n)
  {
    if requests == [] then []
    else ToObjectNames(fetch(requests[0]).names) + Listed(fetch, requests[1..])
  }

  /** One step along the chain: a page with a nextStartWith is followed by the chain from it. */
  lemma ChainStep(fetch: ListRequest -> ListPage, scope: Scope, start: Option<string>, fuel: nat)
    requires EndsWithin(fetch, scope, start, fuel)
    requires fetch(ListRequest(scope, start)).nextStartWith != None
    ensures var next := fetch(ListRequest(scope, start)).nextStartWith;
      && EndsWithin(fetch, scope, next, fuel - 1)
      && Chain(fetch, scope, start, fuel) == [ListRequest(scope, start)] + Chain(fetch, scope, next, fuel - 1)
  {
  }

  /** The chain seen from a point part-way along it: `done` followed by the chain from `start`
      is `done` and the request at `start` followed by the chain from the next start. */
  lemma ChainAdvance(fetch: ListRequest -> ListPage, scope: Scope, start: Option<string>, fuel: nat,
                     done: seq<ListRequest>)
    requires EndsWithin(fetch, scope, start, fuel)
    requires fetch(ListRequest(scope, start)).nextStartWith != None
    ensures var next := fetch(ListRequest(scope, start)).nextStartWith;
      && EndsWithin(fetch, scope, next, fuel - 1)
      && done + Chain(fetch, scope, start, fuel)
         == (done + [ListRequest(scope, start)]) + Chain(fetch, scope, next, fuel - 1)
  {
    ChainStep(fetch, scope, start, fuel);
  }

  lemma {:induction false} ListedSnoc(fetch: ListRequest -> ListPage, requests: seq<ListRequest>, request: ListRequest)
    ensures Listed(fetch, requests + [request]) == Listed(fetch, requests) + ToObjectNames(fetch(request).names)
  {
    if requests == [] {
      assert Listed(fetch, [request]) == ToObjectNames(fetch(request).names) + Listed(fetch, []);
    } else {
      assert (requests + [request])[1..] == requests[1..] + [request];
      ListedSnoc(fetch, requests[1..], request);
    }
  }

  /** listObjects(bucket, prefix): fetches pages until one has no nextStartWith, gathering
      the filtered names of every page. */
  method ListObjects(fetch: ListRequest -> ListPage, scope: Scope, ghost fuel: nat)
    returns (objectNames: seq<string>, ghost requests: seq<ListRequest>)
    requires EndsWithin(fetch, scope, None, fuel)
    ensures objectNames == Listed(fetch, Chain(fetch, scope, None, fuel))
    ensures requests == Chain(fetch, scope, None, fuel)
  {
    var start: Option<string> := None;
    var response := fetch(ListRequest(scope, start));
    requests := [ListRequest(scope, start)];
    objectNames := ToObjectNames(response.names);
    ListedSnoc(fetch, [], ListRequest(scope, start));
    ghost var done: seq<ListRequest> := [];
    ghost var f := fuel;
    while response.nextStartWith != None
      invariant EndsWithin(fetch, scope, start, f)
      invariant requests == done + [ListRequest(scope, start)]
      invariant response == fetch(ListRequest(scope, start))
      invariant Chain(fetch, scope, None, fuel) == done + Chain(fetch, scope, start, f)
      invariant objectNames == Listed(fetch, requests)
      decreases f
    {
      ChainAdvance(fetch, scope, start, f, done);
      done := requests;
      start := response.nextStartWith;
      f := f - 1;
      var request := ListRequest(scope, start);
      ListedSnoc(fetch, requests, request);
      requests := requests + [request];
      response := fetch(request);
      objectNames := objectNames + ToObjectNames(response.names);
    }
  }

  /** The texts of the named objects whose read succeeds, in order; a failed read drops that
      object only. */
  function ReadSucceeded(scope: Scope, names: seq<string>, read: GetRequest -> Option<string>)
    : (r: seq<string>)
    ensures |r| <= |names|
  {
    if names == [] then []
    else
      var text := read(GetRequest(scope.namespace, scope.bucket, names[0]));
      (if text.Some? then [text.value] else []) + ReadSucceeded(scope, names[1..], read)
  }

  lemma {:induction false} ReadSucceededAppend(scope: Scope, a: seq<string>, b: seq<string>,
                                                read: GetRequest -> Option<string>)
    ensures ReadSucceeded(scope, a + b, read) == ReadSucceeded(scope, a, read) + ReadSucceeded(scope, b, read)
  {
    if a == [] {
      assert a + b == b;
    } else {
      assert (a + b)[0] == a[0] && (a + b)[1..] == a[1..] + b;
      ReadSucceededAppend(scope, a[1..], b, read);
    }
  }

  /** A failed read is skipped and the objects after it are still read. */
  lemma FailedReadSkipped(scope: Scope, a: seq<string>, name: string, b: seq<string>,
                          read: GetRequest -> Option<string>)
    requires read(GetRequest(scope.namespace, scope.bucket, name)) == None
    ensures ReadSucceeded(scope, a + [name] + b, read) == ReadSucceeded(scope, a, read) + ReadSucceeded(scope, b, read)
  {
    assert ReadSucceeded(scope, [name], read) == [] + ReadSucceeded(scope, [], read);
    ReadSucceededAppend(scope, a, [name], read);
    ReadSucceededAppend(scope, a + [name], b, read);
  }

  /** When every read succeeds there is one text per name, in the same order. */
  lemma {:induction false} AllReadsSucceed(scope: Scope, names: seq<string>, read: GetRequest -> Option<string>)
    requires forall i :: 0 <= i < |names| ==> read(GetRequest(scope.namespace, scope.bucket, names[i])).Some?
    ensures |ReadSucceeded(scope, names, read)| == |names|
    ensures forall i :: 0 <= i < |names| ==>
      ReadSucceeded(scope, names, read)[i] == read(GetRequest(scope.namespace, scope.bucket, names[i])).value
  {
    if names != [] {
      AllReadsSucceed(scope, names[1..], read);
    }
  }

  /** streamDocuments(bucket, prefix): the text of every listed object that could be read,
      in listing order; never more documents than listed names. */
  method StreamDocuments(fetch: ListRequest -> ListPage, read: GetRequest -> Option<string>,
                         scope: Scope, ghost fuel: nat)
    returns (documents: seq<string>)
    requires EndsWithin(fetch, scope, None, fuel)
    ensures documents == ReadSucceeded(scope, Listed(fetch, Chain(fetch, scope, None, fuel)), read)
    ensures |documents| <= |Listed(fetch, Chain(fetch, scope, None, fuel))|
  {
    var names, requests := ListObjects(fetch, scope, fuel);
    documents := ReadSucceeded(scope, names, read);
  }
}
