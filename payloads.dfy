/**
 * The platform's HTTP answers, as abstract records. The network, the Set-Cookie
 * parsing of `requests` and JSON decoding are outside the model: an answer is
 * given as its status code, the fields of its decoded JSON object that the
 * client reads, and the cookies it set.
 */
module Payloads {
  import opened Wrappers
  import opened PyDict

  /** The `rtmp` object of a start-broadcast answer. */
  datatype Rtmp = Rtmp(addr: Option<string>, code: Option<string>)

  /**
   * A decoded JSON object, restricted to the keys the client reads; a field is
   * `None` when its key is absent (a nested `data` also when it is not an object).
   */
  datatype Body = Body(
    code: Option<int>,         // "code"
    message: Option<string>,   // "message"
    data: Option<Body>,        // "data"
    rtmp: Option<Rtmp>,        // "rtmp"
    roomId: Option<int>,       // "room_id"
    url: Option<string>,       // "url"
    qrcodeKey: Option<string>  // "qrcode_key"
  )

  /**
   * An HTTP answer: its status code, its body (`None` when `response.json()`
   * raises), and the cookies it set, in the order the cookie jar lists them
   * (a name may occur more than once, for different domains or paths).
   */
  datatype HttpResponse = HttpResponse(status: int, body: Option<Body>, setCookies: Dict)

  /** One live category: `name`, `id` and `pinyin` of an entry of a theme's `list`. */
  datatype Partition = Partition(name: string, id: Option<int>, pinyin: string)

  /** One theme of the category catalog: its `name` (absent: `None`) and its `list`. */
  datatype Theme = Theme(name: Option<string>, list: seq<Partition>)

  /**
   * A decoded category-list document: its `data` list of themes (absent: `None`)
   * and how many other top-level keys it has, which only matters for Python's
   * truthiness of the whole document.
   */
  datatype CatalogPayload = CatalogPayload(data: Option<seq<Theme>>, otherKeys: nat)

  /** The answer to the category-list request: status code and decoded document. */
  datatype CatalogResponse = CatalogResponse(status: int, payload: Option<CatalogPayload>)

  /** Python's truthiness of a decoded document: a dict is true when it has a key. */
  predicate CatalogTruthy(p: CatalogPayload) {
    p.data.Some? || p.otherKeys > 0
  }
}
