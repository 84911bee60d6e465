/**
 * The two custom components of Newswithbranching.py: Greeter, and
 * HackernewsNewestFetcher, which turns the newest Hacker News posts into
 * documents. The HTTP requests and the fetch-and-convert pipeline are
 * oracles passed in as functions.
 */
module News {
  import opened Wrappers

  const GreetingKey: string := "greeting"
  const Hello: string := "Hello "

  /** Greeter.run: the single output `greeting` is "Hello " followed by the user's name. */
  function Greet(userName: string): (out: map<string, string>)
    ensures out.Keys == {GreetingKey}
    ensures |out[GreetingKey]| == |Hello| + |userName|
    ensures out[GreetingKey][..|Hello|] == Hello && out[GreetingKey][|Hello|..] == userName
  {
    map[GreetingKey := Hello + userName]
  }

  /** Different names give different greetings. */
  lemma GreetInjective(a: string, b: string)
    ensures Greet(a) == Greet(b) <==> a == b
  {
  }

  /** The fields of a post's JSON that the fetcher reads. */
  datatype Post = Post(url: Option<string>, text: Option<string>, title: Option<string>)

  /** The body of `item/{id}.json`: `null` for an id with no item, else an object. */
  datatype Item = Null | Json(post: Post)

  datatype Document = Document(content: string, meta: map<string, string>)

  /** What the fetch-and-convert pipeline gives for one URL: its documents, or an exception. */
  datatype Conversion = Converted(documents: seq<Document>) | Failed

  /** The exception that escapes `run`: the membership test on a `null` post. */
  datatype Exception = TypeErrorOnNullPost(id: int)

  /** What one post does to the article list. */
  datatype Step = Append(doc: Document) | Skip | Raise

  /**
   * Python's `ids[0:topK]` stops here: a negative bound counts from the
   * end, and the result is clamped to the list.
   */
  function SliceStop(n: nat, topK: int): (stop: nat)
    ensures stop <= n
    ensures 0 <= topK ==> stop == (if topK < n then topK else n)
    ensures topK < 0 ==> stop == (if n + topK > 0 then n + topK else 0)
  {
    if topK >= 0 then (if topK < n then topK else n)
    else if n + topK > 0 then n + topK else 0
  }

  /** The ids the loop examines, in the order received. */
  function Examined(ids: seq<int>, topK: int): (examined: seq<int>)
    ensures examined <= ids
    ensures 0 <= topK ==> |examined| == (if topK < |ids| then topK else |ids|)
  {
    ids[..SliceStop(|ids|, topK)]
  }

  /**
   * One iteration of the loop. A post with a `url` is fetched and
   * converted, and only the first document is kept; a failure or an
   * empty result skips it. Otherwise a post with `text` becomes a
   * document titled by its `title`, and a missing title skips it. A post
   * with neither adds nothing. A `null` post raises outside the handlers.
   */
  function PostStep(item: Item, convert: string -> Conversion): Step
  {
    match item
    case Null => Raise
    case Json(post) =>
      if post.url.Some? then
        match convert(post.url.value)
        case Converted(docs) => if |docs| > 0 then Append(docs[0]) else Skip
        case Failed => Skip
      else if post.text.Some? then
        if post.title.Some? then Append(Document(post.text.value, map["title" := post.title.value]))
        else Skip
      else Skip
  }

  /** The articles the loop has collected after examining `ids`, or the exception it raised. */
  function Collect(ids: seq<int>, itemOf: int -> Item, convert: string -> Conversion)
    : Result<seq<Document>, Exception>
    decreases |ids|
  {
    if ids == [] then Ok([])
    else
      var last := ids[|ids| - 1];
      match Collect(ids[..|ids| - 1], itemOf, convert)
      case Err(e) => Err(e)
      case Ok(articles) =>
        match PostStep(itemOf(last), convert)
        case Append(d) => Ok(articles + [d])
        case Skip => Ok(articles)
        case Raise => Err(TypeErrorOnNullPost(last))
  }

  /** Once the loop has raised, examining further ids does not change the outcome. */
  lemma {:induction false} RaisedStays(ids: seq<int>, k: nat, itemOf: int -> Item, convert: string -> Conversion)
    requires k <= |ids|
    requires Collect(ids[..k], itemOf, convert).Err?
    ensures Collect(ids, itemOf, convert) == Collect(ids[..k], itemOf, convert)
    decreases |ids| - k
  {
    if k < |ids| {
      assert ids[..k + 1][..k] == ids[..k];
      RaisedStays(ids, k + 1, itemOf, convert);
    } else {
      assert ids[..k] == ids;
    }
  }

  /**
   * HackernewsNewestFetcher.run. `ids` is the body of `topstories.json`,
   * `itemOf` answers `item/{id}.json`, and `convert` runs the fetch and
   * HTML conversion pipeline on one URL.
   */
  method FetchNewest(topK: int, ids: seq<int>, itemOf: int -> Item, convert: string -> Conversion)
    returns (r: Result<seq<Document>, Exception>)
    ensures r == Collect(Examined(ids, topK), itemOf, convert)
  {
    var examined := ids[..SliceStop(|ids|, topK)];
    var articles: seq<Document> := [];
    for i := 0 to |examined|
      invariant Collect(examined[..i], itemOf, convert) == Ok(articles)
    {
      var id := examined[i];
      assert examined[..i + 1][..i] == examined[..i];
      match itemOf(id)
      case Null =>
        RaisedStays(examined, i + 1, itemOf, convert);
        return Err(TypeErrorOnNullPost(id));
      case Json(post) =>
        if post.url.Some? {
          match convert(post.url.value)
          case Converted(docs) =>
            if |docs| > 0 {
              articles := articles + [docs[0]];
            }
          case Failed =>
        } else if post.text.Some? {
          if post.title.Some? {
            articles := articles + [Document(post.text.value, map["title" := post.title.value])];
          }
        }
    }
    assert examined[..|examined|] == examined;
    r := Ok(articles);
  }

  /** The loop raises exactly when one of the examined posts is `null`. */
  lemma {:induction false} CollectRaisesIffNullPost(ids: seq<int>, itemOf: int -> Item, convert: string -> Conversion)
    ensures Collect(ids, itemOf, convert).Err? <==> exists i :: 0 <= i < |ids| && itemOf(ids[i]).Null?
    decreases |ids|
  {
    if ids != [] {
      var init := ids[..|ids| - 1];
      CollectRaisesIffNullPost(init, itemOf, convert);
      if exists i :: 0 <= i < |init| && itemOf(init[i]).Null? {
        var i :| 0 <= i < |init| && itemOf(init[i]).Null?;
        assert itemOf(ids[i]).Null?;
      }
      if exists i :: 0 <= i < |ids| && itemOf(ids[i]).Null? {
        var i :| 0 <= i < |ids| && itemOf(ids[i]).Null?;
        if i < |init| {
          assert itemOf(init[i]).Null?;
        }
      }
    }
  }

  /**
   * Every article comes from one examined post, at most one per post, in
   * the order of the ids: `origin[j]` is the position of the id that
   * produced article j. Every post whose step appends is among them.
   */
  lemma {:induction false} CollectOrigins(ids: seq<int>, itemOf: int -> Item, convert: string -> Conversion)
    returns (origin: seq<nat>)
    requires Collect(ids, itemOf, convert).Ok?
    ensures var articles := Collect(ids, itemOf, convert).value;
      |origin| == |articles|
      && (forall j :: 0 <= j < |origin| ==> origin[j] < |ids|)
      && (forall j, k :: 0 <= j < k < |origin| ==> origin[j] < origin[k])
      && (forall j :: 0 <= j < |origin| ==> PostStep(itemOf(ids[origin[j]]), convert) == Append(articles[j]))
      && (forall i :: 0 <= i < |ids| && PostStep(itemOf(ids[i]), convert).Append? ==> i in origin)
    decreases |ids|
  {
    if ids == [] {
      origin := [];
    } else {
      var init := ids[..|ids| - 1];
      var n := |ids| - 1;
      assert Collect(init, itemOf, convert).Ok?;
      var before := CollectOrigins(init, itemOf, convert);
      assert forall i :: 0 <= i < |init| ==> init[i] == ids[i];
      match PostStep(itemOf(ids[n]), convert)
      case Append(d) =>
        origin := before + [n];
      case Skip =>
        origin := before;
      case Raise =>
        assert false;
    }
  }

  /** Each examined id adds at most one article, so there are no more articles than ids examined. */
  lemma {:induction false} CollectBound(ids: seq<int>, itemOf: int -> Item, convert: string -> Conversion)
    requires Collect(ids, itemOf, convert).Ok?
    ensures |Collect(ids, itemOf, convert).value| <= |ids|
    decreases |ids|
  {
    if ids != [] {
      CollectBound(ids[..|ids| - 1], itemOf, convert);
    }
  }

  /** With a non-negative `topK`, the fetcher returns at most min(topK, |ids|) articles. */
  lemma {:induction false} FetchBound(topK: int, ids: seq<int>, itemOf: int -> Item, convert: string -> Conversion)
    requires topK >= 0
    requires Collect(Examined(ids, topK), itemOf, convert).Ok?
    ensures |Collect(Examined(ids, topK), itemOf, convert).value| <= topK
    ensures |Collect(Examined(ids, topK), itemOf, convert).value| <= |ids|
  {
    CollectBound(Examined(ids, topK), itemOf, convert);
  }

  /** A post with a `url` is fetched whatever `text` it also has. */
  lemma UrlTakesPrecedence(post: Post, text: Option<string>, convert: string -> Conversion)
    requires post.url.Some?
    ensures PostStep(Json(post.(text := text)), convert) == PostStep(Json(post), convert)
    ensures PostStep(Json(post), convert).Append? <==>
      convert(post.url.value).Converted? && |convert(post.url.value).documents| > 0
    ensures PostStep(Json(post), convert).Append? ==>
      PostStep(Json(post), convert).doc == convert(post.url.value).documents[0]
  {
  }

  /** A post with `text` and no `url` is kept as a document of its text, titled, exactly when it has a title. */
  lemma TextPostBecomesDocument(post: Post, convert: string -> Conversion)
    requires post.url.None? && post.text.Some?
    ensures PostStep(Json(post), convert).Append? <==> post.title.Some?
    ensures post.title.Some? ==>
      PostStep(Json(post), convert).doc == Document(post.text.value, map["title" := post.title.value])
  {
  }

  /** A post with neither `url` nor `text` contributes nothing. */
  lemma BarePostSkipped(post: Post, convert: string -> Conversion)
    requires post.url.None? && post.text.None?
    ensures PostStep(Json(post), convert) == Skip
  {
  }
}
