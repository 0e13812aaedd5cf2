/**
 * The platform client (`BilibiliAPI`): the cookie-string codec, the form
 * payloads of the authenticated calls, and how each answer is turned into the
 * value the caller receives. The HTTP round trip itself is not modelled: every
 * call takes the answer it would receive as a parameter, `None` standing for a
 * request that raised.
 */
module BilibiliApi {
  import opened Wrappers
  import opened PyStr
  import opened PyDict
  import opened Payloads

  // ---------------------------------------------------------------------------
  // Cookie string codec
  // ---------------------------------------------------------------------------

  /** One `k=v` item of a cookie string. */
  function Item(p: (string, string)): string {
    p.0 + "=" + p.1
  }

  function Items(d: Dict): (r: seq<string>)
    ensures |r| == |d| && forall i :: 0 <= i < |d| ==> r[i] == Item(d[i])
  {
    seq(|d|, i requires 0 <= i < |d| => Item(d[i]))
  }

  /** `cookies_dict_to_string`: the items `k=v` in dict order, joined by `"; "`. */
  function CookiesDictToString(cookies: Dict): (r: string)
    ensures r == [] <==> cookies == []
  {
    var items := Items(cookies);
    assert cookies != [] ==> items[0] <= Join("; ", items) && items[0][|cookies[0].0|] == '=';
    Join("; ", items)
  }

  /** `s.split("=", 1)` on a string holding `=`: the text before the first `=`, and all after it. */
  function SplitOnce(t: string): (string, string)
    requires '=' in t
  {
    if t[0] == '=' then ([], t[1..])
    else
      assert '=' in t[1..];
      var rest := SplitOnce(t[1..]);
      ([t[0]] + rest.0, rest.1)
  }

  /** The key holds no `=`, and key, `=` and value make up the whole string again. */
  lemma {:induction false} SplitOnceSpec(t: string)
    requires '=' in t
    ensures '=' !in SplitOnce(t).0
    ensures SplitOnce(t).0 + "=" + SplitOnce(t).1 == t
  {
    if t[0] != '=' {
      assert [t[0]] + t[1..] == t;
      SplitOnceSpec(t[1..]);
    }
  }

  /** `=` is not white space, so it survives `strip()`. */
  lemma StripKeepsEquals(s: string)
    requires '=' in s
    ensures '=' in Strip(s)
  {
    var p :| 0 <= p < |s| && s[p] == '=';
    var i, j := StripBounds(s);
    assert !IsSpace(s[p]);
    assert Strip(s)[p - i] == '=';
  }

  /**
   * `key, value = item.strip().split("=", 1)`: the key is the stripped segment
   * up to its first `=`, the value everything after it (so a value may hold `=`).
   */
  function SplitPair(item: string): (string, string)
    requires '=' in item
  {
    StripKeepsEquals(item);
    SplitOnce(Strip(item))
  }

  /** The key of a segment holds no `=`, and key, `=` and value make up the stripped segment. */
  lemma SplitPairSpec(item: string)
    requires '=' in item
    ensures '=' !in SplitPair(item).0
    ensures SplitPair(item).0 + "=" + SplitPair(item).1 == Strip(item)
  {
    StripKeepsEquals(item);
    SplitOnceSpec(Strip(item));
  }

  /** The key/value pairs of the segments that hold `=`, in order; the others are skipped. */
  function SegmentPairs(segments: seq<string>): (r: Dict)
    ensures |r| <= |segments|
  {
    if segments == [] then []
    else
      var last := segments[|segments| - 1];
      SegmentPairs(segments[..|segments| - 1]) + (if '=' in last then [SplitPair(last)] else [])
  }

  /** The pairs of a concatenation of segment lists are the concatenated pairs. */
  lemma {:induction false} SegmentPairsAppend(xs: seq<string>, ys: seq<string>)
    ensures SegmentPairs(xs + ys) == SegmentPairs(xs) + SegmentPairs(ys)
  {
    if ys == [] {
      assert xs + ys == xs;
    } else {
      var n := |ys| - 1;
      assert (xs + ys)[..|xs + ys| - 1] == xs + ys[..n];
      assert (xs + ys)[|xs + ys| - 1] == ys[n];
      SegmentPairsAppend(xs, ys[..n]);
    }
  }

  /** `cookies_string_to_dict`, as a value: the dict the parsing loop builds. */
  function ParseCookies(cookieStr: string): Dict {
    if cookieStr == [] then [] else Collect(SegmentPairs(Split(cookieStr, ';')))
  }

  /**
   * `cookies_string_to_dict`: split on `;`, and for each segment holding `=`
   * assign the value after its first `=` to the stripped text before it.
   */
  method CookiesStringToDict(cookieStr: string) returns (cookies: Dict)
    ensures cookies == ParseCookies(cookieStr)
    ensures DistinctKeys(cookies)
  {
    cookies := [];
    if cookieStr != [] {
      var items := Split(cookieStr, ';');
      for i := 0 to |items|
        invariant cookies == Collect(SegmentPairs(items[..i]))
      {
        var item := items[i];
        assert items[..i + 1][..i] == items[..i];
        ghost var before := SegmentPairs(items[..i]);
        if '=' in item {
          var kv := SplitPair(item);
          assert SegmentPairs(items[..i + 1]) == before + [kv];
          assert (before + [kv])[..|before|] == before;
          cookies := Put(cookies, kv.0, kv.1);
        } else {
          assert SegmentPairs(items[..i + 1]) == before;
        }
      }
      assert items[..|items|] == items;
    }
  }

  /** The empty string too is the parse of its (single, empty) segment. */
  lemma ParseCookiesBySegments(cookieStr: string)
    ensures ParseCookies(cookieStr) == Collect(SegmentPairs(Split(cookieStr, ';')))
  {
    if cookieStr == [] {
      assert Split(cookieStr, ';') == [[]];
      assert SegmentPairs([[]]) == SegmentPairs([]) + [];
    }
  }

  /** The segments of `a;b` are those of `a` followed by those of `b`. */
  lemma SplitSemicolon(a: string, b: string)
    ensures Split(a + ";" + b, ';') == Split(a, ';') + Split(b, ';')
  {
    assert a + ";" + b == a + [';'] + b;
    SplitConcat(a, ';', b);
  }

  /** A segment without `=` contributes no pair wherever it stands. */
  lemma SegmentPairsSkip(xs: seq<string>, junk: string, ys: seq<string>)
    requires '=' !in junk
    ensures SegmentPairs(xs + ([junk] + ys)) == SegmentPairs(xs + ys)
  {
    SegmentPairsAppend(xs, [junk] + ys);
    SegmentPairsAppend([junk], ys);
    assert SegmentPairs([junk]) == [] by {
      assert [junk][..0] == [];
    }
    SegmentPairsAppend(xs, ys);
  }

  /** A segment without `=` between two others is skipped. */
  lemma ParseSkipsSegmentWithoutEquals(a: string, junk: string, b: string)
    requires ';' !in junk && '=' !in junk
    ensures ParseCookies(a + ";" + junk + ";" + b) == ParseCookies(a + ";" + b)
  {
    var sa, sb := Split(a, ';'), Split(b, ';');
    assert Split(a + ";" + junk + ";" + b, ';') == sa + ([junk] + sb) by {
      assert a + ";" + junk + ";" + b == a + ";" + (junk + ";" + b);
      SplitSemicolon(a, junk + ";" + b);
      SplitSemicolon(junk, b);
      SplitNoSep(junk, ';');
    }
    SplitSemicolon(a, b);
    SegmentPairsSkip(sa, junk, sb);
  }

  /**
   * A later occurrence of a key overrides an earlier one: in `a;b`, a key
   * reads as `b` gives it when `b` mentions it, and as `a` gives it otherwise.
   */
  lemma ParseLaterWins(a: string, b: string, k: string)
    ensures Get(ParseCookies(a + ";" + b), k)
            == if Get(ParseCookies(b), k).Some? then Get(ParseCookies(b), k) else Get(ParseCookies(a), k)
  {
    SplitSemicolon(a, b);
    SegmentPairsAppend(Split(a, ';'), Split(b, ';'));
    ParseCookiesBySegments(a);
    ParseCookiesBySegments(b);
    CollectAppend(SegmentPairs(Split(a, ';')), SegmentPairs(Split(b, ';')), k);
  }

  /**
   * The items `dict_to_string` can write so that parsing reads them back: no
   * `=` or `;` in the key, no `;` in the value, no white space at the start of
   * the key or at the end of the value.
   */
  predicate CookieSafe(p: (string, string)) {
    && '=' !in p.0 && ';' !in p.0 && ';' !in p.1
    && (p.0 == [] || !IsSpace(p.0[0]))
    && (p.1 == [] || !IsSpace(p.1[|p.1| - 1]))
  }

  /** The segments `"; ".join(parts).split(";")` yields: every part after the first keeps the blank. */
  function Spaced(parts: seq<string>): (r: seq<string>)
    requires |parts| >= 1
    ensures |r| == |parts| && r[0] == parts[0]
    ensures forall i :: 1 <= i < |parts| ==> r[i] == [' '] + parts[i]
  {
    [parts[0]] + seq(|parts| - 1, i requires 0 <= i < |parts| - 1 => [' '] + parts[i + 1])
  }

  /** Splitting `p0; j` for `p0` without `;`: `p0`, then the pieces of `j` with a blank on the first. */
  lemma SplitAfterItem(p0: string, j: string)
    requires ';' !in p0
    ensures Split(p0 + "; " + j, ';') == [p0] + ([[' '] + Split(j, ';')[0]] + Split(j, ';')[1..])
  {
    assert p0 + "; " + j == p0 + [';'] + ([' '] + j);
    SplitConcat(p0, ';', [' '] + j);
    SplitNoSep(p0, ';');
    SplitCons(' ', j, ';');
  }

  lemma SpacedCons(parts: seq<string>)
    requires |parts| >= 2
    ensures Spaced(parts) == [parts[0]] + ([[' '] + parts[1]] + Spaced(parts[1..])[1..])
  {
    var rest := parts[1..];
    var r := [parts[0]] + ([[' '] + parts[1]] + Spaced(rest)[1..]);
    forall i | 2 <= i < |parts| ensures r[i] == Spaced(parts)[i] {
      assert r[i] == Spaced(rest)[i - 1];
    }
  }

  lemma {:induction false} SplitJoin(parts: seq<string>)
    requires |parts| >= 1 && forall i :: 0 <= i < |parts| ==> ';' !in parts[i]
    ensures Split(Join("; ", parts), ';') == Spaced(parts)
  {
    if |parts| == 1 {
      SplitNoSep(parts[0], ';');
    } else {
      var rest := parts[1..];
      assert Join("; ", parts) == parts[0] + "; " + Join("; ", rest);
      SplitAfterItem(parts[0], Join("; ", rest));
      SplitJoin(rest);
      SpacedCons(parts);
    }
  }

  /** When every segment holds `=`, each yields one pair, in order. */
  lemma {:induction false} SegmentPairsAll(segments: seq<string>, d: Dict)
    requires |d| == |segments|
    requires forall i :: 0 <= i < |segments| ==> '=' in segments[i] && SplitPair(segments[i]) == d[i]
    ensures SegmentPairs(segments) == d
  {
    if segments != [] {
      var n := |segments| - 1;
      var init := segments[..n];
      forall i | 0 <= i < n ensures '=' in init[i] && SplitPair(init[i]) == d[..n][i] {
        assert init[i] == segments[i];
      }
      SegmentPairsAll(init, d[..n]);
      assert '=' in segments[n];
      assert SegmentPairs(segments) == d[..n] + [d[n]];
      SnocLast(d);
    }
  }

  lemma {:induction false} SplitOnceOfItem(k: string, v: string)
    requires '=' !in k
    ensures SplitOnce(k + "=" + v) == (k, v)
  {
    if k != [] {
      assert (k + "=" + v)[1..] == k[1..] + "=" + v;
      SplitOnceOfItem(k[1..], v);
      assert [k[0]] + k[1..] == k;
    }
  }

  /** A safe item holds `=` right after its key, and neither of its ends is white space. */
  lemma ItemShape(p: (string, string))
    requires CookieSafe(p)
    ensures var t := Item(p); |t| > |p.0| && t[|p.0|] == '=' && !IsSpace(t[0]) && !IsSpace(t[|t| - 1])
  {
    var t := Item(p);
    assert t[|p.0|] == '=';
    assert t[0] == (if p.0 == [] then '=' else p.0[0]);
    assert t[|t| - 1] == (if p.1 == [] then '=' else p.1[|p.1| - 1]);
  }

  /** A segment that is `t`, possibly after one blank, holds `=` and strips to `t`. */
  lemma StripOfSegment(t: string, k: nat, segment: string)
    requires k < |t| && t[k] == '=' && !IsSpace(t[0]) && !IsSpace(t[|t| - 1])
    requires segment == t || segment == [' '] + t
    ensures '=' in segment && Strip(segment) == t
  {
    if segment == t {
      StripUnchanged(t);
    } else {
      StripLeadingBlank(t);
      assert segment[k + 1] == '=';
    }
  }

  /** A safe item, with or without the blank that follows a `;`, parses back to its pair. */
  lemma SplitPairOfItem(p: (string, string), segment: string)
    requires CookieSafe(p)
    requires segment == Item(p) || segment == [' '] + Item(p)
    ensures '=' in segment && SplitPair(segment) == p
  {
    ItemShape(p);
    StripOfSegment(Item(p), |p.0|, segment);
    SplitOnceOfItem(p.0, p.1);
  }

  lemma ItemWithoutSemicolon(p: (string, string))
    requires ';' !in p.0 && ';' !in p.1
    ensures ';' !in Item(p)
  {
  }

  /** The segments of a written cookie string are its items, each after the first with its blank. */
  lemma SegmentsOfCookieString(cookies: Dict)
    requires cookies != []
    requires forall i :: 0 <= i < |cookies| ==> CookieSafe(cookies[i])
    ensures Split(CookiesDictToString(cookies), ';') == Spaced(Items(cookies))
  {
    var items := Items(cookies);
    forall i | 0 <= i < |items| ensures ';' !in items[i] {
      ItemWithoutSemicolon(cookies[i]);
    }
    SplitJoin(items);
  }

  /** Each segment of a written cookie string yields its item's pair back. */
  lemma PairsOfSegments(cookies: Dict)
    requires cookies != []
    requires forall i :: 0 <= i < |cookies| ==> CookieSafe(cookies[i])
    ensures SegmentPairs(Spaced(Items(cookies))) == cookies
  {
    var segments := Spaced(Items(cookies));
    forall i | 0 <= i < |segments| ensures '=' in segments[i] && SplitPair(segments[i]) == cookies[i] {
      SplitPairOfItem(cookies[i], segments[i]);
    }
    SegmentPairsAll(segments, cookies);
  }

  /**
   * Round trip of the codec: parsing the string `cookies_dict_to_string`
   * writes gives back the same dict, in the same order, provided every item
   * is `CookieSafe`.
   */
  lemma CookieRoundTrip(cookies: Dict)
    requires DistinctKeys(cookies)
    requires forall i :: 0 <= i < |cookies| ==> CookieSafe(cookies[i])
    ensures ParseCookies(CookiesDictToString(cookies)) == cookies
  {
    if cookies != [] {
      SegmentsOfCookieString(cookies);
      PairsOfSegments(cookies);
      CollectOfDict(cookies);
    }
  }

  // ---------------------------------------------------------------------------
  // QR login
  // ---------------------------------------------------------------------------

  /** `get_qrcode_data`: the `data` object of an answer whose `code` is 0, else `None`. */
  function GetQrcodeData(response: Option<HttpResponse>): (r: Option<Body>)
    ensures r.Some? <==> response.Some? && response.value.body.Some?
                         && response.value.body.value.code == Some(0)
                         && response.value.body.value.data.Some?
    ensures r.Some? ==> r == response.value.body.value.data
  {
    match response
    case None => None
    case Some(resp) =>
      match resp.body
      case None => None
      case Some(result) => if result.code == Some(0) then result.data else None
  }

  /** `data.get("data", {}).get("code", -1)` of a decoded answer. */
  function PollCode(body: Option<Body>): int {
    if body.Some? && body.value.data.Some? && body.value.data.value.code.Some?
    then body.value.data.value.code.value
    else -1
  }

  /**
   * What `check_qr_login` answers: a non-200 answer or a failed request gives
   * `(-1, None)`; otherwise the status is `data.code` (-1 when missing), and
   * only status 0 comes with the cookies the answer set, the last one of each
   * name winning.
   */
  function QrPoll(response: Option<HttpResponse>): (r: (int, Option<Dict>))
    ensures response.None? || response.value.status != 200 ==> r == (-1, None)
    ensures response.Some? && response.value.status == 200 ==> r.0 == PollCode(response.value.body)
    ensures r.1.Some? <==> r.0 == 0
    ensures r.1.Some? ==> r.1.value == Collect(response.value.setCookies) && DistinctKeys(r.1.value)
  {
    if response.None? || response.value.status != 200 then (-1, None)
    else
      var status := PollCode(response.value.body);
      if status == 0 then (status, Some(Collect(response.value.setCookies))) else (status, None)
  }

  /**
   * `check_qr_login`: the cookie dict is built by assigning the cookies of the
   * answer one after the other.
   */
  method CheckQrLogin(response: Option<HttpResponse>) returns (status: int, cookies: Option<Dict>)
    ensures (status, cookies) == QrPoll(response)
  {
    if response.None? || response.value.status != 200 {
      return -1, None;
    }
    status := PollCode(response.value.body);
    if status == 0 {
      var jar := response.value.setCookies;
      var collected: Dict := [];
      for i := 0 to |jar|
        invariant collected == Collect(jar[..i])
      {
        assert jar[..i + 1] == jar[..i] + [(jar[i].0, jar[i].1)];
        CollectSnoc(jar[..i], jar[i].0, jar[i].1);
        collected := Put(collected, jar[i].0, jar[i].1);
      }
      assert jar[..|jar|] == jar;
      cookies := Some(collected);
    } else {
      cookies := None;
    }
  }

  // ---------------------------------------------------------------------------
  // Session-backed calls
  // ---------------------------------------------------------------------------

  const Platform: string := "android_link"

  /** The form of `start_live`. */
  function StartLiveForm(roomId: int, csrf: string, areaV2: int): (form: Dict)
    ensures Get(form, "platform") == Some(Platform)
    ensures Get(form, "csrf") == Some(csrf) && Get(form, "csrf_token") == Some(csrf)
    ensures Get(form, "room_id") == Some(IntToStr(roomId))
    ensures Get(form, "area_v2") == Some(IntToStr(areaV2))
  {
    var form := [("room_id", IntToStr(roomId)), ("platform", Platform), ("area_v2", IntToStr(areaV2)),
                 ("backup_stream", "0"), ("csrf_token", csrf), ("csrf", csrf)];
    GetFirst(form, 0); GetFirst(form, 1); GetFirst(form, 2);
    GetFirst(form, 4); GetFirst(form, 5);
    form
  }

  /** The form of `stop_live`. */
  function StopLiveForm(roomId: int, csrf: string): (form: Dict)
    ensures Get(form, "platform") == Some(Platform)
    ensures Get(form, "csrf") == Some(csrf) && Get(form, "csrf_token") == Some(csrf)
    ensures Get(form, "room_id") == Some(IntToStr(roomId))
  {
    var form := [("room_id", IntToStr(roomId)), ("platform", Platform), ("csrf_token", csrf), ("csrf", csrf)];
    GetFirst(form, 0); GetFirst(form, 1); GetFirst(form, 2); GetFirst(form, 3);
    form
  }

  /** The form of `update_live_title`. */
  function UpdateTitleForm(roomId: int, title: string, csrf: string): (form: Dict)
    ensures Get(form, "platform") == Some(Platform)
    ensures Get(form, "csrf") == Some(csrf) && Get(form, "csrf_token") == Some(csrf)
    ensures Get(form, "room_id") == Some(IntToStr(roomId))
    ensures Get(form, "title") == Some(title)
  {
    var form := [("room_id", IntToStr(roomId)), ("platform", Platform), ("title", title),
                 ("csrf_token", csrf), ("csrf", csrf)];
    GetFirst(form, 0); GetFirst(form, 1); GetFirst(form, 2);
    GetFirst(form, 3); GetFirst(form, 4);
    form
  }

  /** The decoded body of an answer that arrived, if it is a JSON object. */
  function Decoded(response: Option<HttpResponse>): Option<Body> {
    if response.Some? then response.value.body else None
  }

  /** A POST request of a session-backed call: its form and the cookies sent with it. */
  datatype Post = Post(form: Dict, cookies: Dict)

  /** What `start_live` posts, and what it returns: `(success, data)` or `(False, whole result)`. */
  datatype StartOutcome = StartOutcome(sent: Post, success: bool, payload: Option<Body>)

  /**
   * `start_live` given the answer to its POST of `StartLiveForm(roomId, csrf, areaV2)`:
   * success iff the answer's `code` is 0, handing back its `data`; otherwise
   * the whole decoded answer, or nothing when the request or decoding raised.
   */
  function StartLive(roomId: int, csrf: string, areaV2: int, cookies: Dict,
                     response: Option<HttpResponse>): (r: StartOutcome)
    ensures r.sent == Post(StartLiveForm(roomId, csrf, areaV2), cookies)
    ensures r.success <==> Decoded(response).Some? && Decoded(response).value.code == Some(0)
    ensures r.success ==> r.payload == Decoded(response).value.data
    ensures !r.success ==> r.payload == Decoded(response)
  {
    var sent := Post(StartLiveForm(roomId, csrf, areaV2), cookies);
    match Decoded(response)
    case None => StartOutcome(sent, false, None)
    case Some(result) =>
      if result.code == Some(0) then StartOutcome(sent, true, result.data)
      else StartOutcome(sent, false, Some(result))
  }

  /** What `stop_live` posts, and whether it succeeded. */
  datatype StopOutcome = StopOutcome(sent: Post, success: bool)

  /**
   * `stop_live` given the answer to its POST of `StopLiveForm(roomId, csrf)`:
   * true iff the answer decodes and its `code` is 0 (the status code is not looked at).
   */
  function StopLive(roomId: int, csrf: string, cookies: Dict, response: Option<HttpResponse>): (r: StopOutcome)
    ensures r.sent == Post(StopLiveForm(roomId, csrf), cookies)
    ensures r.success <==> Decoded(response).Some? && Decoded(response).value.code == Some(0)
  {
    var sent := Post(StopLiveForm(roomId, csrf), cookies);
    match Decoded(response)
    case None => StopOutcome(sent, false)
    case Some(result) => StopOutcome(sent, result.code == Some(0))
  }

  /** What `update_live_title` does: the form it posts, if any, and its result. */
  datatype TitleUpdate = TitleUpdate(sent: Option<Post>, success: bool)

  /** The longest title the client lets through. */
  const MaxTitleLength: nat := 20

  /**
   * `update_live_title`: a title longer than 20 characters is refused before
   * any request is built; otherwise `UpdateTitleForm` is posted and the call
   * succeeds iff the answer has status 200 and `code` 0.
   */
  function UpdateLiveTitle(roomId: int, title: string, csrf: string, cookies: Dict,
                           response: Option<HttpResponse>): (r: TitleUpdate)
    ensures |title| > MaxTitleLength ==> r.sent.None? && !r.success
    ensures |title| <= MaxTitleLength ==> r.sent == Some(Post(UpdateTitleForm(roomId, title, csrf), cookies))
    ensures r.success <==> |title| <= MaxTitleLength && response.Some? && response.value.status == 200
                           && Decoded(response).Some? && Decoded(response).value.code == Some(0)
  {
    if |title| > MaxTitleLength then TitleUpdate(None, false)
    else
      var form := Post(UpdateTitleForm(roomId, title, csrf), cookies);
      match response
      case None => TitleUpdate(Some(form), false)
      case Some(resp) =>
        if resp.status != 200 then TitleUpdate(Some(form), false)
        else match resp.body
          case None => TitleUpdate(Some(form), false)
          case Some(result) => TitleUpdate(Some(form), result.code == Some(0))
  }

  /** Python truthiness of an optional string: present and non-empty. */
  predicate StrTruthy(s: Option<string>) {
    s.Some? && s.value != []
  }

  /** What `get_room_id_and_csrf` returns. */
  datatype RoomAndCsrf = RoomAndCsrf(roomId: Option<int>, csrf: Option<string>)

  /**
   * `get_room_id_and_csrf`, given the answer to the room-id query for the uid
   * in the `DedeUserID` cookie: no uid, or a request that raised, gives
   * `(None, None)`; otherwise the csrf token is the `bili_jct` cookie and the
   * room id is `data.room_id` of an answer whose `code` is 0.
   */
  function GetRoomIdAndCsrf(cookies: Dict, response: Option<HttpResponse>): (r: RoomAndCsrf)
    ensures !StrTruthy(Get(cookies, "DedeUserID")) ==> r == RoomAndCsrf(None, None)
    ensures Decoded(response).None? ==> r == RoomAndCsrf(None, None)
    ensures StrTruthy(Get(cookies, "DedeUserID")) && Decoded(response).Some? ==> r.csrf == Get(cookies, "bili_jct")
    ensures r.roomId.Some? ==> StrTruthy(Get(cookies, "DedeUserID")) && Decoded(response).Some?
                               && Decoded(response).value.code == Some(0)
                               && Decoded(response).value.data.Some?
                               && r.roomId == Decoded(response).value.data.value.roomId
    ensures StrTruthy(Get(cookies, "DedeUserID")) && Decoded(response).Some?
            && Decoded(response).value.code == Some(0) && Decoded(response).value.data.Some?
            ==> r.roomId == Decoded(response).value.data.value.roomId
  {
    if !StrTruthy(Get(cookies, "DedeUserID")) then RoomAndCsrf(None, None)
    else
      match Decoded(response)
      case None => RoomAndCsrf(None, None)
      case Some(data) =>
        var roomId :=
          if data.code == Some(0) && data.data.Some? then data.data.value.roomId else None;
        RoomAndCsrf(roomId, Get(cookies, "bili_jct"))
  }

  /**
   * `get_live_areas`: the decoded category document of a status-200 answer;
   * `None` for any other status or a request that raised.
   */
  function GetLiveAreas(cookies: Dict, response: Option<CatalogResponse>): (r: Option<CatalogPayload>)
    ensures r.Some? ==> response.Some? && response.value.status == 200 && r == response.value.payload
    ensures response.Some? && response.value.status == 200 ==> r == response.value.payload
  {
    if response.Some? && response.value.status == 200 then response.value.payload else None
  }
}
