/** The article record the feed returns, as far as the poll reads it. A JSON value
    is `null`, a string or an integer; a key the record lacks is `None`. */
module Feed {
  import opened Strings

  datatype Option<T> = None | Some(value: T)

  datatype Json = JNull | JStr(s: string) | JInt(n: int)

  /** `artikel['id']` (`JNull` also when the key is missing: `get` then returns Python's
      `None` as well), `artikel['post_title']` and `artikel['permalink']`. */
  datatype Article = Article(id: Json, title: Option<Json>, link: Option<Json>)

  /** The outcome of `requests.get(API_URL).json()['datas'][0]`: any exception on the
      way (network, decoding, missing key, empty list) is `FetchFailed`. */
  datatype Fetch = FetchFailed | Fetched(article: Article)

  const TitleDefault := "Judul tidak ditemukan"
  const LinkDefault := "Link tidak ditemukan"

  /** Python's `str(v)`: a string is itself, `null` prints as `None` and an integer as its
      decimal text. Only `null` and the string `None` itself print as `None`. */
  function PyStr(v: Json): (r: string)
    ensures v.JStr? ==> r == v.s
    ensures v.JInt? ==> r != [] && AllDigits(if r[0] == '-' then r[1..] else r) && ParseInt(r) == v.n
    ensures r == "None" <==> v == JNull || v == JStr("None")
  {
    match v
    case JNull => "None"
    case JStr(s) => s
    case JInt(n) => ParseShowInt(n); ShowInt(n)
  }

  /** `str(artikel_id)`: the text the poll compares and stores. */
  function IdText(a: Article): string
  {
    PyStr(a.id)
  }

  /** `artikel.get('post_title', 'Judul tidak ditemukan')`. */
  function TitleOf(a: Article): Json
  {
    match a.title
    case None => JStr(TitleDefault)
    case Some(v) => v
  }

  /** `artikel.get('permalink', 'Link tidak ditemukan')`. */
  function LinkOf(a: Article): Json
  {
    match a.link
    case None => JStr(LinkDefault)
    case Some(v) => v
  }

  /** An integer id and the string of its digits compare alike; two distinct
      integer ids never do. */
  lemma IdTextOfNumbers(a: Article, b: Article, m: int, n: int)
    requires a.id == JInt(m)
    ensures b.id == JStr(ShowInt(m)) ==> IdText(a) == IdText(b)
    ensures b.id == JInt(n) ==> (IdText(a) == IdText(b) <==> m == n)
  {
    ShowIntInjective(m, n);
  }

  /** An integer id never reads as the text of an absent marker. */
  lemma IntIdIsNotNone(n: int)
    ensures PyStr(JInt(n)) != "None"
  {
    var s := ShowInt(n);
    assert s[0] != 'N';
  }
}
