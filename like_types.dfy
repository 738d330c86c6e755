/** The record types of the likes archive (src/types/like.ts) and the shapes a
    stored JSON file can take once it has been read and parsed. */
module LikeTypes {

  datatype Option<T> = None | Some(value: T)

  /** JavaScript truthiness of an optional string: `undefined` and `""` are falsy. */
  predicate Truthy(s: Option<string>) {
    s.Some? && s.value != ""
  }

  /** The value of `s || ''`. */
  function OrEmpty(s: Option<string>): (r: string)
    ensures Truthy(s) ==> r == s.value
    ensures !Truthy(s) ==> r == ""
  {
    if s.Some? then s.value else ""
  }

  /** One entry of `entities.urls` in a fetched tweet. */
  datatype UrlEntity = UrlEntity(url: Option<string>, expanded_url: Option<string>, display_url: Option<string>)

  datatype Entities = Entities(urls: Option<seq<UrlEntity>>)

  /** A link-preview card; each image field stands for the optional chain
      `binding_values?.<name>?.image_value?.url`, each text field for
      `binding_values?.<name>?.string_value`. */
  datatype Card = Card(
    url: Option<string>,
    title: Option<string>,
    description: Option<string>,
    thumbnailImage: Option<string>,
    photoImageFull: Option<string>,
    summaryPhotoImage: Option<string>)

  /** The part of the fetched tweet payload (`react_tweet_data`) the pipeline looks into. */
  datatype TweetData = TweetData(entities: Option<Entities>, card: Option<Card>)

  /** What `fetchTweet(id)` of react-tweet yields: `{ data, tombstone, notFound }`
      (each flag `true` when present), or an error it throws. */
  datatype FetchOutcome = Fetched(data: Option<TweetData>, tombstone: bool, notFound: bool) | FetchThrew

  /** A liked tweet. Optional members of the JSON record are `Option`s; `private`
      and `notfound` are `false` when absent. */
  datatype Like = Like(
    text: Option<string>,
    username: Option<string>,
    tweet_url: string,
    first_link: string,
    created_at: string,
    embed_code: Option<string>,
    liked_at: string,
    source: string,
    tweet_id: Option<string>,
    react_tweet_data: Option<TweetData>,
    private: bool,
    notfound: bool)

  /** `if (like.tweet_id)`: the ID is present and not the empty string. */
  predicate HasTweetId(l: Like) {
    Truthy(l.tweet_id)
  }

  /** A day document `{ body: Like[] }`. */
  datatype DayJson = DayJson(body: seq<Like>)

  datatype DateInfo = DateInfo(year: string, month: string, day: string)

  /** What `JSON.parse(readFileSync(path))` gives for a stored file. */
  datatype Content =
    | Unparseable              // the read or the parse throws
    | DayObject(body: seq<Like>) // an object whose `body` is an array
    | LikeObject(like: Like)   // a single like record (the raw-store format, no `body`)
    | OtherObject              // an object whose `body` is missing or not an array
    | ArrayValue(length: nat)  // a top-level JSON array

  /** `Array.isArray(x.body) ? x.body.length : 0` for a parsed file. */
  function BodyCount(c: Content): (n: nat)
    requires !c.Unparseable?
    ensures c.DayObject? ==> n == |c.body|
    ensures !c.DayObject? ==> n == 0
  {
    if c.DayObject? then |c.body| else 0
  }
}
