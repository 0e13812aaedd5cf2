/**
 * The state logic of the two windows: the QR login dialog, whose poll timer
 * runs until the login succeeds, the code expires or a poll fails, and the
 * main window, whose session (`cookies`, `room_id`, `csrf`) and broadcast
 * state (`live_started`, the stream address and code) change through login,
 * logout, title updates and starting or stopping the broadcast. Widgets are
 * reduced to the text they hold (passed in as parameters) and to which of
 * them are enabled (a function of the state); the platform's answers are
 * parameters too.
 */
module Ui {
  import opened Wrappers
  import opened PyStr
  import opened PyDict
  import opened Payloads
  import Api = BilibiliApi
  import Config
  import Partitions

  // ---------------------------------------------------------------------------
  // The login dialog
  // ---------------------------------------------------------------------------

  /** The text of the dialog's status line. */
  datatype DialogText =
    | ScanPrompt      // "请使用B站APP扫描二维码"
    | QrImageFailed   // "生成二维码失败"
    | QrDataFailed    // "获取二维码数据失败"
    | LoginSucceeded  // "登录成功！"
    | QrExpired       // "二维码已失效，请重新登录"
    | ScannedWaiting  // "已扫描，请在手机上确认登录"
    | PollFailed      // "检查登录状态失败，请重试"

  /** The poll statuses the dialog reacts to. */
  const Expired: int := 86038
  const Scanned: int := 86090
  const NotScanned: int := 86101

  class LoginDialog {
    /** `qrcode_key`: the key of the QR code being shown, if one was obtained. */
    var qrcodeKey: Option<string>
    /** Whether `login_timer` is running, i.e. polls keep coming. */
    var timerActive: bool
    var status: DialogText
    /** Whether the dialog was accepted (`accept()`). */
    var accepted: bool
    /** The cookies sent with `login_successful`, once it was emitted. */
    var emitted: Option<Dict>

    /** A dialog that signalled success did so with a non-empty cookie dict, and stopped polling. */
    predicate Valid()
      reads this
    {
      && (accepted <==> emitted.Some?)
      && (emitted.Some? ==> emitted.value != [] && !timerActive)
    }

    /**
     * `__init__` and `load_qrcode`, given the answer to the QR-code request and
     * whether the QR image could be drawn: polling starts only when the answer
     * carries both a `url` and a `qrcode_key` and the image was drawn.
     */
    constructor(qrResponse: Option<HttpResponse>, pixmapOk: bool)
      ensures Valid() && !accepted
      ensures var data := Api.GetQrcodeData(qrResponse);
              var usable := data.Some? && data.value.url.Some? && data.value.qrcodeKey.Some?;
              && qrcodeKey == (if usable then data.value.qrcodeKey else None)
              && (timerActive <==> usable && pixmapOk)
              && status == (if !usable then QrDataFailed else if pixmapOk then ScanPrompt else QrImageFailed)
    {
      accepted := false;
      emitted := None;
      qrcodeKey := None;
      timerActive := false;
      status := ScanPrompt;
      var qrData := Api.GetQrcodeData(qrResponse);
      if qrData.Some? && qrData.value.url.Some? && qrData.value.qrcodeKey.Some? {
        qrcodeKey := qrData.value.qrcodeKey;
        if pixmapOk {
          timerActive := true;
        } else {
          status := QrImageFailed;
        }
      } else {
        status := QrDataFailed;
      }
    }

    /**
     * `check_login_status`, one tick of the poll timer, given the answer to the
     * poll request. Without a key nothing happens. Status 0 with a non-empty
     * cookie dict stops the timer and signals success; 86038 (expired) and -1
     * (request failed) stop the timer; 86090 and 86101 only change the status
     * line; any other status, and status 0 without cookies, change nothing.
     */
    method CheckLoginStatus(response: Option<HttpResponse>)
      requires Valid()
      modifies this
      ensures Valid() && qrcodeKey == old(qrcodeKey)
      ensures !Api.StrTruthy(qrcodeKey) ==> unchanged(this)
      ensures Api.StrTruthy(qrcodeKey) ==>
                var (code, cookies) := Api.QrPoll(response);
                var success := code == 0 && cookies.Some? && cookies.value != [];
                && (timerActive <==> old(timerActive) && !success && code != Expired && code != -1)
                && (success ==> accepted && emitted == cookies && status == LoginSucceeded)
                && (!success ==> accepted == old(accepted) && emitted == old(emitted))
                && (code == Expired ==> status == QrExpired)
                && (code == Scanned ==> status == ScannedWaiting)
                && (code == NotScanned ==> status == ScanPrompt)
                && (code == -1 ==> status == PollFailed)
                && (!success && code !in {Expired, Scanned, NotScanned, -1} ==> status == old(status))
    {
      if !Api.StrTruthy(qrcodeKey) {
        return;
      }
      var code, cookies := Api.CheckQrLogin(response);
      if code == 0 && cookies.Some? && cookies.value != [] {
        timerActive := false;
        status := LoginSucceeded;
        emitted := cookies;
        accepted := true;
      } else if code == Expired {
        timerActive := false;
        status := QrExpired;
      } else if code == Scanned {
        status := ScannedWaiting;
      } else if code == NotScanned {
        status := ScanPrompt;
      } else if code == -1 {
        timerActive := false;
        status := PollFailed;
      }
    }

    /** `closeEvent`: closing the dialog stops the timer. */
    method CloseEvent()
      requires Valid()
      modifies this
      ensures Valid() && !timerActive
      ensures qrcodeKey == old(qrcodeKey) && status == old(status)
      ensures accepted == old(accepted) && emitted == old(emitted)
    {
      timerActive := false;
    }
  }

  // ---------------------------------------------------------------------------
  // The main window's state, and what it enables
  // ---------------------------------------------------------------------------

  /** The fields of the main window that its handlers change. */
  datatype Session = Session(
    cookies: Option<Dict>,
    roomId: Option<int>,
    csrf: Option<string>,
    liveStarted: bool,
    rtmpAddr: Option<string>,  // current_rtmp_addr
    rtmpCode: Option<string>   // current_rtmp_code
  )

  /** The state before any login, and after `logout`. */
  const SignedOut: Session := Session(None, None, None, false, None, None)

  /** `logged_in` of `_update_ui_state`: all three session fields are set. */
  predicate LoggedIn(s: Session) {
    s.cookies.Some? && s.roomId.Some? && s.csrf.Some?
  }

  /** Python truthiness of an optional room id: present and not 0. */
  predicate IdTruthy(id: Option<int>) {
    id.Some? && id.value != 0
  }

  /**
   * The guard of `update_live_title` and `toggle_live_stream`: the cookies,
   * room id and csrf token are all truthy.
   */
  predicate Usable(s: Session) {
    s.cookies.Some? && s.cookies.value != [] && IdTruthy(s.roomId) && Api.StrTruthy(s.csrf)
  }

  /**
   * What every handler keeps: stream details exist only while live, and a
   * broadcast runs only on a usable session.
   */
  predicate Consistent(s: Session) {
    && (!s.liveStarted ==> s.rtmpAddr.None? && s.rtmpCode.None?)
    && (s.liveStarted ==> Usable(s))
  }

  /** Which controls are enabled, and the caption of the start button. */
  datatype Controls = Controls(
    login: bool,
    logout: bool,
    themeCombo: bool,
    areaCombo: bool,
    titleEdit: bool,
    titleButton: bool,
    startButton: bool,
    copyAddr: bool,
    copyCode: bool,
    startText: string
  )

  const StartCaption: string := "开始直播"
  const StopCaption: string := "停止直播"

  /**
   * `_update_ui_state`: everything follows `logged_in`, the copy buttons
   * follow the stream details, and while live the title and category controls
   * are switched off again.
   */
  function UiState(s: Session): (c: Controls)
    ensures c.login <==> !LoggedIn(s)
    ensures c.logout <==> LoggedIn(s)
    ensures c.startButton <==> LoggedIn(s)
    ensures c.copyAddr <==> s.liveStarted && Api.StrTruthy(s.rtmpAddr) && Api.StrTruthy(s.rtmpCode)
    ensures c.copyCode == c.copyAddr
    ensures (c.themeCombo <==> LoggedIn(s) && !s.liveStarted) && c.areaCombo == c.themeCombo
    ensures c.titleEdit == c.themeCombo && c.titleButton == c.themeCombo
    ensures c.startText == if s.liveStarted then StopCaption else StartCaption
  {
    var loggedIn := LoggedIn(s);
    var streamInfo := s.liveStarted && Api.StrTruthy(s.rtmpAddr) && Api.StrTruthy(s.rtmpCode);
    var c := Controls(!loggedIn, loggedIn, loggedIn, loggedIn, loggedIn, loggedIn, loggedIn,
                      streamInfo, streamInfo, "");
    if s.liveStarted then
      c.(startText := StopCaption, themeCombo := false, areaCombo := false,
         titleEdit := false, titleButton := false)
    else if loggedIn then
      c.(startText := StartCaption, themeCombo := true, areaCombo := true,
         titleEdit := true, titleButton := true)
    else
      c.(startText := StartCaption)
  }

  /**
   * While a broadcast runs, the window offers logout and stop but neither login
   * nor any change of title or category.
   */
  lemma LiveLocksSettings(s: Session)
    requires Consistent(s) && s.liveStarted
    ensures var c := UiState(s);
            c.logout && c.startButton && c.startText == StopCaption
            && !c.login && !c.themeCombo && !c.areaCombo && !c.titleEdit && !c.titleButton
  {
    assert LoggedIn(s);
  }

  /** After logout only the login button is enabled. */
  lemma SignedOutControls()
    ensures UiState(SignedOut) == Controls(true, false, false, false, false, false, false, false, false, StartCaption)
  {
    var c := UiState(SignedOut);
    assert !LoggedIn(SignedOut);
  }

  // ---------------------------------------------------------------------------
  // The saved session
  // ---------------------------------------------------------------------------

  /** The login record `handle_login_success` saves: `save_cookies(str(room_id), cookies_dict_to_string(cookies), csrf)`. */
  function SavedRecord(cookies: Dict, roomId: int, csrf: string): Config.LoginRecord {
    Config.LoginRecord(roomId, Api.CookiesDictToString(cookies), csrf)
  }

  /** The session `_load_saved_data` builds from a login record. */
  function Restored(record: Config.LoginRecord): Session {
    Session(Some(Api.ParseCookies(record.cookies)), Some(record.roomId), Some(record.csrf), false, None, None)
  }

  /**
   * A session saved at login comes back unchanged when the client starts
   * again, as long as no cookie name or value holds the characters the
   * cookie string uses as separators (see `BilibiliApi.CookieRoundTrip`).
   */
  lemma {:induction false} SessionRoundTrip(cookies: Dict, roomId: int, csrf: string)
    requires DistinctKeys(cookies)
    requires forall i :: 0 <= i < |cookies| ==> Api.CookieSafe(cookies[i])
    ensures Restored(SavedRecord(cookies, roomId, csrf)) == Session(Some(cookies), Some(roomId), Some(csrf), false, None, None)
  {
    Api.CookieRoundTrip(cookies);
  }

  /**
   * The themes after `_on_login_success`: the freshly fetched catalog when the
   * session has cookies and the fetch gave a non-empty document, the current
   * themes otherwise.
   */
  function RefreshedThemes(current: seq<Theme>, cookies: Option<Dict>, areas: Option<CatalogResponse>): (r: seq<Theme>)
    ensures cookies.None? || cookies.value == [] ==> r == current
    ensures r != current ==> areas.Some? && areas.value.status == 200 && areas.value.payload.Some?
                             && r == Partitions.CatalogThemes(areas.value.payload.value)
    ensures cookies.Some? && cookies.value != [] && areas.Some? && areas.value.status == 200
            && areas.value.payload.Some? && CatalogTruthy(areas.value.payload.value)
            ==> r == Partitions.CatalogThemes(areas.value.payload.value)
  {
    if cookies.Some? && cookies.value != [] then
      match Api.GetLiveAreas(cookies.value, areas)
      case Some(doc) => if CatalogTruthy(doc) then Partitions.CatalogThemes(doc) else current
      case None => current
    else current
  }

  /** The marker of a rejected credential in a start-broadcast error message. */
  const AuthFailure: string := "主播身份校验失败"

  /** How Python formats an optional string in an f-string: `None` prints as "None". */
  function Shown(s: Option<string>): string {
    if s.Some? then s.value else "None"
  }

  /** What `toggle_live_stream` ended with. */
  datatype Toggle =
    | NotLoggedIn            // "请先登录！"
    | Stopped
    | StopFailed
    | NoCategory             // no category selected
    | UnknownCategory        // the category name has no id
    | Started
    | StartedWithoutCode     // the answer has no stream code: `code[:10]` raises TypeError
    | StartFailed(loggedOut: bool)

  /**
   * The title request of a usable session for the stripped `title`: nothing
   * for an empty title, and otherwise `update_live_title`, which refuses a
   * title longer than 20 characters.
   */
  function TitleStep(s: Session, title: string, response: Option<HttpResponse>): (r: Api.TitleUpdate)
    requires Usable(s)
    ensures r.sent.Some? <==> title != [] && |title| <= Api.MaxTitleLength
    ensures r.sent.Some? ==> r.sent.value == Api.Post(Api.UpdateTitleForm(s.roomId.value, title, s.csrf.value), s.cookies.value)
    ensures r.success <==> r.sent.Some? && response.Some? && response.value.status == 200
                           && Api.Decoded(response).Some? && Api.Decoded(response).value.code == Some(0)
  {
    if title == [] then Api.TitleUpdate(None, false)
    else Api.UpdateLiveTitle(s.roomId.value, title, s.csrf.value, s.cookies.value, response)
  }

  /** The requests an optional request amounts to. */
  function Posts(sent: Option<Api.Post>): seq<Api.Post> {
    if sent.Some? then [sent.value] else []
  }

  /** `_save_current_settings`: the selected theme and category and the title box, as typed. */
  function SavedSettings(prefs: map<string, Config.Value>, theme: string, area: string, title: string)
    : (r: map<string, Config.Value>)
    ensures r.Keys == prefs.Keys + {"last_area_theme", "last_area_name", "last_title"}
    ensures r["last_area_theme"] == Config.VStr(theme) && r["last_area_name"] == Config.VStr(area)
    ensures r["last_title"] == Config.VStr(title)
    ensures forall k :: k in prefs && k !in {"last_area_theme", "last_area_name", "last_title"} ==> r[k] == prefs[k]
  {
    prefs["last_area_theme" := Config.VStr(theme)]["last_area_name" := Config.VStr(area)]["last_title" := Config.VStr(title)]
  }

  /** The preferences after a successful title update to `title`, or unchanged. */
  function AfterTitle(prefs: map<string, Config.Value>, title: string, updated: bool): map<string, Config.Value> {
    if updated then prefs["last_title" := Config.VStr(title)] else prefs
  }

  // ---------------------------------------------------------------------------
  // The main window
  // ---------------------------------------------------------------------------

  class MainWindow {
    var cookies: Option<Dict>
    var roomId: Option<int>
    var csrf: Option<string>
    var liveStarted: bool
    var rtmpAddr: Option<string>
    var rtmpCode: Option<string>
    const config: Config.ConfigManager
    const partitions: Partitions.PartitionManager

    function Snapshot(): Session
      reads this
    {
      Session(cookies, roomId, csrf, liveStarted, rtmpAddr, rtmpCode)
    }

    predicate Valid()
      reads this
    {
      Consistent(Snapshot())
    }

    /**
     * `__init__` and `_load_saved_data`: signed out, unless a login record was
     * saved, in which case its session is restored and the category list is
     * refreshed with it.
     */
    constructor(config: Config.ConfigManager, partitions: Partitions.PartitionManager,
                areas: Option<CatalogResponse>)
      modifies partitions
      ensures this.config == config && this.partitions == partitions && Valid()
      ensures config.loginFile.None? ==> Snapshot() == SignedOut && partitions.partitionData == old(partitions.partitionData)
      ensures config.loginFile.Some? ==>
                && Snapshot() == Restored(config.loginFile.value)
                && partitions.partitionData == RefreshedThemes(old(partitions.partitionData), cookies, areas)
    {
      this.config := config;
      this.partitions := partitions;
      cookies, roomId, csrf := None, None, None;
      liveStarted := false;
      rtmpAddr, rtmpCode := None, None;
      new;
      var saved := config.LoadLoginData();
      if saved.Some? {
        var parsed := Api.CookiesStringToDict(saved.value.cookies);
        cookies := Some(parsed);
        roomId := Some(saved.value.roomId);
        csrf := Some(saved.value.csrf);
        OnLoginSuccess(areas);
      }
    }

    /** `_on_login_success`: refresh the category list when the session has cookies. */
    method OnLoginSuccess(areas: Option<CatalogResponse>)
      modifies partitions
      ensures partitions.partitionData == RefreshedThemes(old(partitions.partitionData), cookies, areas)
    {
      if cookies.Some? && cookies.value != [] {
        var areaData := Api.GetLiveAreas(cookies.value, areas);
        if areaData.Some? && CatalogTruthy(areaData.value) {
          partitions.UpdatePartitionData(areaData.value);
        }
      }
    }

    /**
     * `handle_login_success`, given the cookies the login dialog signalled and
     * the answers to the room-id and category requests. The session is taken
     * over only when both the room id and the csrf token come back truthy;
     * then it is saved (when `auto_save_cookies` is on, which it is by default)
     * and the category list is refreshed. Otherwise the cookies are dropped
     * and nothing is saved.
     */
    method HandleLoginSuccess(newCookies: Dict, roomResponse: Option<HttpResponse>,
                              areas: Option<CatalogResponse>)
      requires Valid() && UiState(Snapshot()).login
      modifies this, config, partitions
      ensures Valid()
      ensures var rc := Api.GetRoomIdAndCsrf(newCookies, roomResponse);
              var ok := IdTruthy(rc.roomId) && Api.StrTruthy(rc.csrf);
              var autoSave := Config.Truthy(old(config.Get("auto_save_cookies", Config.VBool(true))));
              && (ok ==> && Snapshot() == old(Snapshot()).(cookies := Some(newCookies), roomId := rc.roomId, csrf := rc.csrf)
                         && config.loginFile == (if autoSave then Some(SavedRecord(newCookies, rc.roomId.value, rc.csrf.value))
                                                 else old(config.loginFile))
                         && partitions.partitionData == RefreshedThemes(old(partitions.partitionData), Some(newCookies), areas))
              && (!ok ==> && Snapshot() == old(Snapshot()).(cookies := None)
                          && config.loginFile == old(config.loginFile)
                          && partitions.partitionData == old(partitions.partitionData))
      ensures config.configData == old(config.configData) && config.streamCodeFile == old(config.streamCodeFile)
      ensures config.configFile == old(config.configFile)
    {
      cookies := Some(newCookies);
      var rc := Api.GetRoomIdAndCsrf(newCookies, roomResponse);
      if IdTruthy(rc.roomId) && Api.StrTruthy(rc.csrf) {
        roomId := rc.roomId;
        csrf := rc.csrf;
        AutoSave(newCookies, rc.roomId.value, rc.csrf.value);
        OnLoginSuccess(areas);
      } else {
        cookies := None;
      }
    }

    /**
     * The saving step of `handle_login_success`: with `auto_save_cookies` on,
     * the cookie string is saved together with `str(room_id)`, which
     * `save_cookies` converts back with `int` without error.
     */
    method AutoSave(newCookies: Dict, id: int, token: string)
      modifies config
      ensures config.loginFile == if Config.Truthy(old(config.Get("auto_save_cookies", Config.VBool(true))))
                                  then Some(SavedRecord(newCookies, id, token)) else old(config.loginFile)
      ensures config.configData == old(config.configData) && config.streamCodeFile == old(config.streamCodeFile)
      ensures config.configFile == old(config.configFile)
    {
      if Config.Truthy(config.Get("auto_save_cookies", Config.VBool(true))) {
        var cookieStr := Api.CookiesDictToString(newCookies);
        IntRoundTrip(id);
        var saved := config.SaveCookies(IntToStr(id), cookieStr, token);
      }
    }

    /** `logout`: the session and stream details are forgotten, and both files are removed. */
    method Logout()
      modifies this, config
      ensures Snapshot() == SignedOut && Valid()
      ensures config.loginFile.None? && config.streamCodeFile.None?
      ensures config.configData == old(config.configData) && config.configFile == old(config.configFile)
    {
      cookies, roomId, csrf := None, None, None;
      liveStarted := false;
      rtmpAddr, rtmpCode := None, None;
      var _ := config.ClearCookies();
      var _ := config.ClearStreamCode();
    }

    /**
     * `update_live_title`, given the text of the title box and the answer to
     * the update request. Nothing is sent when the session is not usable, or
     * the stripped title is empty or longer than 20 characters; a title the
     * platform accepts is remembered as `last_title`.
     */
    method UpdateLiveTitle(titleText: string, response: Option<HttpResponse>) returns (sent: Option<Api.Post>, updated: bool)
      modifies config
      ensures var title := Strip(titleText);
              && (sent.Some? <==> Usable(Snapshot()) && title != [] && |title| <= Api.MaxTitleLength)
              && (sent.Some? ==> sent.value == Api.Post(Api.UpdateTitleForm(roomId.value, title, csrf.value), cookies.value))
              && (updated <==> Usable(Snapshot()) && TitleStep(Snapshot(), title, response).success)
              && config.configData == AfterTitle(old(config.configData), title, updated)
      ensures config.loginFile == old(config.loginFile) && config.streamCodeFile == old(config.streamCodeFile)
      ensures config.configFile == old(config.configFile)
    {
      sent, updated := None, false;
      if !Usable(Snapshot()) {
        return;
      }
      var newTitle := Strip(titleText);
      if newTitle == [] {
        return;
      }
      if |newTitle| > Api.MaxTitleLength {
        return;
      }
      var outcome := Api.UpdateLiveTitle(roomId.value, newTitle, csrf.value, cookies.value, response);
      sent, updated := outcome.sent, outcome.success;
      if updated {
        config.Set("last_title", Config.VStr(newTitle));
      }
    }

    /**
     * `toggle_live_stream`: stop the broadcast when live, start one otherwise;
     * nothing happens on a session that is not usable. `posted` lists the
     * requests sent, in order.
     */
    method ToggleLiveStream(themeText: string, areaText: string, titleText: string,
                            titleResponse: Option<HttpResponse>, startResponse: Option<HttpResponse>,
                            stopResponse: Option<HttpResponse>) returns (outcome: Toggle, posted: seq<Api.Post>)
      requires Valid()
      modifies this, config
      ensures Valid()
      ensures !Usable(old(Snapshot())) ==>
                outcome == NotLoggedIn && posted == [] && Snapshot() == old(Snapshot()) && unchanged(config)
      ensures Usable(old(Snapshot())) && old(liveStarted) ==>
                && StopState(old(Snapshot()), old(config.streamCodeFile), stopResponse, outcome, posted,
                             Snapshot(), config.streamCodeFile)
                && config.configData == old(config.configData) && config.loginFile == old(config.loginFile)
      ensures Usable(old(Snapshot())) && !old(liveStarted) ==>
                StartState(old(Snapshot()), old(config.loginFile), old(config.streamCodeFile), old(config.configData),
                           old(partitions.partitionData), themeText, areaText, titleText, titleResponse, startResponse,
                           outcome, posted, Snapshot(), config.configData, config.loginFile, config.streamCodeFile)
      ensures config.configFile == old(config.configFile)
    {
      if !Usable(Snapshot()) {
        return NotLoggedIn, [];
      }
      if liveStarted {
        var stopped;
        stopped, posted := StopStream(stopResponse);
        outcome := if stopped then Stopped else StopFailed;
      } else {
        outcome, posted := StartStream(themeText, areaText, titleText, titleResponse, startResponse);
      }
    }

    /**
     * The stop branch of `toggle_live_stream`: when the platform confirms, the
     * broadcast is over, the stream details are forgotten and the stream-code
     * file removed; otherwise nothing changes.
     */
    method StopStream(stopResponse: Option<HttpResponse>) returns (stopped: bool, posted: seq<Api.Post>)
      requires Valid() && Usable(Snapshot()) && liveStarted
      modifies this, config
      ensures Valid()
      ensures var stop := Api.StopLive(old(roomId).value, old(csrf).value, old(cookies).value, stopResponse);
              posted == [stop.sent] && (stopped <==> stop.success)
      ensures stopped ==> Snapshot() == old(Snapshot()).(liveStarted := false, rtmpAddr := None, rtmpCode := None)
                          && config.streamCodeFile.None?
      ensures !stopped ==> Snapshot() == old(Snapshot()) && config.streamCodeFile == old(config.streamCodeFile)
      ensures config.configData == old(config.configData) && config.loginFile == old(config.loginFile)
      ensures config.configFile == old(config.configFile)
    {
      var stop := Api.StopLive(roomId.value, csrf.value, cookies.value, stopResponse);
      stopped, posted := stop.success, [stop.sent];
      if stopped {
        liveStarted := false;
        rtmpAddr, rtmpCode := None, None;
        var _ := config.ClearStreamCode();
      }
    }

    /**
     * The start branch of `toggle_live_stream`, given the texts of the theme,
     * category and title boxes: look up the category's id, set the title when
     * one is typed (a failure there does not stop the start), then start in
     * that category.
     */
    method StartStream(themeText: string, areaText: string, titleText: string,
                       titleResponse: Option<HttpResponse>, startResponse: Option<HttpResponse>)
      returns (outcome: Toggle, posted: seq<Api.Post>)
      requires Valid() && Usable(Snapshot()) && !liveStarted
      modifies this, config
      ensures Valid()
      ensures StartState(old(Snapshot()), old(config.loginFile), old(config.streamCodeFile), old(config.configData),
                         old(partitions.partitionData), themeText, areaText, titleText, titleResponse, startResponse,
                         outcome, posted, Snapshot(), config.configData, config.loginFile, config.streamCodeFile)
      ensures config.configFile == old(config.configFile)
    {
      if areaText == [] {
        return NoCategory, [];
      }
      var areaId := partitions.GetPartitionByName(areaText, themeText);
      if areaId.None? {
        return UnknownCategory, [];
      }
      ghost var before := Snapshot();
      var titlePosted := SetTitleBeforeStart(titleText, titleResponse);
      assert Snapshot() == before;
      var startPosted;
      outcome, startPosted := Launch(areaId.value, themeText, areaText, titleText, startResponse);
      posted := titlePosted + startPosted;
    }

    /**
     * The title step of the start branch: a non-empty stripped title is sent,
     * and remembered when the platform accepts it.
     */
    method SetTitleBeforeStart(titleText: string, titleResponse: Option<HttpResponse>) returns (posted: seq<Api.Post>)
      requires Usable(Snapshot())
      modifies config
      ensures var step := TitleStep(Snapshot(), Strip(titleText), titleResponse);
              && posted == Posts(step.sent)
              && config.configData == AfterTitle(old(config.configData), Strip(titleText), step.success)
      ensures config.loginFile == old(config.loginFile) && config.streamCodeFile == old(config.streamCodeFile)
      ensures config.configFile == old(config.configFile)
    {
      posted := [];
      var currentTitle := Strip(titleText);
      if currentTitle != [] {
        var titleOutcome := Api.UpdateLiveTitle(roomId.value, currentTitle, csrf.value, cookies.value, titleResponse);
        posted := Posts(titleOutcome.sent);
        if titleOutcome.success {
          config.Set("last_title", Config.VStr(currentTitle));
        }
      }
    }

    /**
     * The start request and what follows it: on success with stream details,
     * the broadcast is live and they are shown and saved (a missing code makes
     * the log line raise before the settings are saved); on failure, an error
     * message naming a rejected credential logs out.
     */
    method Launch(areaV2: int, themeText: string, areaText: string, titleText: string,
                  startResponse: Option<HttpResponse>) returns (outcome: Toggle, posted: seq<Api.Post>)
      requires Valid() && Usable(Snapshot()) && !liveStarted
      modifies this, config
      ensures Valid()
      ensures var started := Api.StartLive(old(roomId).value, old(csrf).value, areaV2, old(cookies).value, startResponse);
              && posted == [started.sent]
              && Launched(old(Snapshot()), old(config.loginFile), old(config.streamCodeFile),
                          started, old(config.configData), themeText, areaText, titleText, outcome)
      ensures config.configFile == old(config.configFile)
    {
      var started := Api.StartLive(roomId.value, csrf.value, areaV2, cookies.value, startResponse);
      posted := [started.sent];
      if started.success && started.payload.Some? && started.payload.value.rtmp.Some? {
        liveStarted := true;
        var rtmp := started.payload.value.rtmp.value;
        rtmpAddr, rtmpCode := rtmp.addr, rtmp.code;
        var _ := config.SaveStreamCode(Shown(rtmp.addr), Shown(rtmp.code));
        if rtmp.code.None? {
          return StartedWithoutCode, posted;
        }
        SaveCurrentSettings(themeText, areaText, titleText);
        return Started, posted;
      }
      var rejected := Rejected(started);
      if rejected {
        Logout();
      }
      return StartFailed(rejected), posted;
    }

    /** `LaunchedState` of the window as it is now. */
    ghost predicate Launched(before: Session, loginBefore: Option<Config.LoginRecord>, streamBefore: Option<string>,
                             started: Api.StartOutcome, prefs: map<string, Config.Value>,
                             themeText: string, areaText: string, titleText: string, outcome: Toggle)
      reads this, config
    {
      LaunchedState(before, loginBefore, streamBefore, started, prefs, themeText, areaText, titleText, outcome,
                    Snapshot(), config.configData, config.loginFile, config.streamCodeFile)
    }

    /** `_save_current_settings`. */
    method SaveCurrentSettings(themeText: string, areaText: string, titleText: string)
      modifies config
      ensures config.configData == SavedSettings(old(config.configData), themeText, areaText, titleText)
      ensures config.loginFile == old(config.loginFile) && config.streamCodeFile == old(config.streamCodeFile)
      ensures config.configFile == old(config.configFile)
    {
      config.Set("last_area_theme", Config.VStr(themeText));
      config.Set("last_area_name", Config.VStr(areaText));
      config.Set("last_title", Config.VStr(titleText));
    }

    /**
     * `closeEvent`: the window geometry and the current selections join the
     * preferences, and all of them are written to the preferences file.
     */
    method CloseEvent(x: int, y: int, width: int, height: int,
                      themeText: string, areaText: string, titleText: string)
      modifies config
      ensures config.configData
              == SavedSettings(old(config.configData)["window_geometry" := Geometry(x, y, width, height)],
                               themeText, areaText, titleText)
      ensures config.configFile == Some(config.configData)
      ensures config.loginFile == old(config.loginFile) && config.streamCodeFile == old(config.streamCodeFile)
    {
      config.Set("window_geometry", Geometry(x, y, width, height));
      SaveCurrentSettings(themeText, areaText, titleText);
      var _ := config.SaveConfig(None);
    }
  }

  /** The stored window geometry `[x, y, width, height]`. */
  function Geometry(x: int, y: int, width: int, height: int): Config.Value {
    Config.VList([Config.VInt(x), Config.VInt(y), Config.VInt(width), Config.VInt(height)])
  }

  /** A failed start whose error message names a rejected broadcaster credential. */
  predicate Rejected(started: Api.StartOutcome) {
    started.payload.Some? && Contains(started.payload.value.message.GetOr(""), AuthFailure)
  }

  /**
   * The state after the start request of a usable session `s` that was not
   * live, given what `start_live` returned and the preferences `prefs` at
   * that moment: the window's new `session`, preferences and files, and the
   * `outcome`.
   */
  ghost predicate LaunchedState(s: Session, loginFile: Option<Config.LoginRecord>, streamCodeFile: Option<string>,
                                started: Api.StartOutcome, prefs: map<string, Config.Value>,
                                themeText: string, areaText: string, titleText: string, outcome: Toggle,
                                session: Session, prefsAfter: map<string, Config.Value>,
                                loginAfter: Option<Config.LoginRecord>, streamAfter: Option<string>)
  {
    if started.success && started.payload.Some? && started.payload.value.rtmp.Some? then
      var rtmp := started.payload.value.rtmp.value;
      && session == s.(liveStarted := true, rtmpAddr := rtmp.addr, rtmpCode := rtmp.code)
      && streamAfter == Some(Config.StreamCodeText(Shown(rtmp.addr), Shown(rtmp.code)))
      && loginAfter == loginFile
      && outcome == (if rtmp.code.None? then StartedWithoutCode else Started)
      && prefsAfter == (if rtmp.code.None? then prefs else SavedSettings(prefs, themeText, areaText, titleText))
    else
      var rejected := Rejected(started);
      && outcome == StartFailed(rejected)
      && prefsAfter == prefs
      && (rejected ==> session == SignedOut && loginAfter.None? && streamAfter.None?)
      && (!rejected ==> session == s && loginAfter == loginFile && streamAfter == streamCodeFile)
  }

  /**
   * The stop branch on a usable live session `s` with stream-code file
   * `streamCodeFile`, given the answer to the stop request: the requests
   * `posted`, the `outcome`, and the new `session` and stream-code file.
   */
  ghost predicate StopState(s: Session, streamCodeFile: Option<string>, stopResponse: Option<HttpResponse>,
                            outcome: Toggle, posted: seq<Api.Post>, session: Session, streamAfter: Option<string>)
    requires Usable(s)
  {
    var stop := Api.StopLive(s.roomId.value, s.csrf.value, s.cookies.value, stopResponse);
    && posted == [stop.sent]
    && outcome == (if stop.success then Stopped else StopFailed)
    && (stop.success ==> session == s.(liveStarted := false, rtmpAddr := None, rtmpCode := None) && streamAfter.None?)
    && (!stop.success ==> session == s && streamAfter == streamCodeFile)
  }

  /**
   * The start branch on a usable session `s` that is not live, with files
   * `loginFile` and `streamCodeFile`, preferences `prefs` and catalog
   * `catalog`, given the typed texts and the answers to the title and start
   * requests: the requests `posted`, the `outcome`, and the new `session`,
   * preferences and files. An empty category name or one without an exact id
   * changes nothing and sends nothing; otherwise the title step is followed
   * by the start request in the category found.
   */
  ghost predicate StartState(s: Session, loginFile: Option<Config.LoginRecord>, streamCodeFile: Option<string>,
                             prefs: map<string, Config.Value>, catalog: seq<Theme>,
                             themeText: string, areaText: string, titleText: string,
                             titleResponse: Option<HttpResponse>, startResponse: Option<HttpResponse>,
                             outcome: Toggle, posted: seq<Api.Post>, session: Session,
                             prefsAfter: map<string, Config.Value>, loginAfter: Option<Config.LoginRecord>,
                             streamAfter: Option<string>)
    requires Usable(s)
  {
    var id := Partitions.ExactId(Partitions.SearchResults(catalog, areaText, themeText), areaText);
    if areaText == [] || id.None? then
      && outcome == (if areaText == [] then NoCategory else UnknownCategory)
      && posted == []
      && session == s && prefsAfter == prefs && loginAfter == loginFile && streamAfter == streamCodeFile
    else
      var step := TitleStep(s, Strip(titleText), titleResponse);
      var started := Api.StartLive(s.roomId.value, s.csrf.value, id.value, s.cookies.value, startResponse);
      && posted == Posts(step.sent) + [started.sent]
      && LaunchedState(s, loginFile, streamCodeFile, started, AfterTitle(prefs, Strip(titleText), step.success),
                       themeText, areaText, titleText, outcome, session, prefsAfter, loginAfter, streamAfter)
  }

  /**
   * What the start branch sends: nothing exactly when it refuses for want of
   * a category; otherwise at most a title request and then, last, the start
   * form carrying the room id, the csrf token and the id of the category
   * named exactly as typed. It never reports a stop outcome.
   */
  lemma StartPostsCategory(s: Session, loginFile: Option<Config.LoginRecord>, streamCodeFile: Option<string>,
                           prefs: map<string, Config.Value>, catalog: seq<Theme>,
                           themeText: string, areaText: string, titleText: string,
                           titleResponse: Option<HttpResponse>, startResponse: Option<HttpResponse>,
                           outcome: Toggle, posted: seq<Api.Post>, session: Session,
                           prefsAfter: map<string, Config.Value>, loginAfter: Option<Config.LoginRecord>,
                           streamAfter: Option<string>)
    requires Usable(s)
    requires StartState(s, loginFile, streamCodeFile, prefs, catalog, themeText, areaText, titleText,
                        titleResponse, startResponse, outcome, posted, session, prefsAfter, loginAfter, streamAfter)
    ensures outcome != NotLoggedIn && outcome != Stopped && outcome != StopFailed
    ensures posted == [] <==> outcome == NoCategory || outcome == UnknownCategory
    ensures var id := Partitions.ExactId(Partitions.SearchResults(catalog, areaText, themeText), areaText);
            posted != [] ==>
              && areaText != [] && id.Some? && |posted| <= 2
              && posted[|posted| - 1]
                 == Api.Post(Api.StartLiveForm(s.roomId.value, s.csrf.value, id.value), s.cookies.value)
  {
    var id := Partitions.ExactId(Partitions.SearchResults(catalog, areaText, themeText), areaText);
    if areaText != [] && id.Some? {
      var step := TitleStep(s, Strip(titleText), titleResponse);
      var started := Api.StartLive(s.roomId.value, s.csrf.value, id.value, s.cookies.value, startResponse);
      PostsThen(step.sent, started.sent, posted);
      LaunchedOutcome(s, loginFile, streamCodeFile, started, AfterTitle(prefs, Strip(titleText), step.success),
                      themeText, areaText, titleText, outcome, session, prefsAfter, loginAfter, streamAfter);
    }
  }

  /** A launch ends in a start outcome, never a refusal or a stop. */
  lemma LaunchedOutcome(s: Session, loginFile: Option<Config.LoginRecord>, streamCodeFile: Option<string>,
                        started: Api.StartOutcome, prefs: map<string, Config.Value>,
                        themeText: string, areaText: string, titleText: string, outcome: Toggle,
                        session: Session, prefsAfter: map<string, Config.Value>,
                        loginAfter: Option<Config.LoginRecord>, streamAfter: Option<string>)
    requires LaunchedState(s, loginFile, streamCodeFile, started, prefs, themeText, areaText, titleText,
                           outcome, session, prefsAfter, loginAfter, streamAfter)
    ensures outcome.Started? || outcome.StartedWithoutCode? || outcome.StartFailed?
  {
  }

  /** A request list made of an optional request and then `last` is non-empty, short, and ends in `last`. */
  lemma PostsThen(first: Option<Api.Post>, last: Api.Post, posted: seq<Api.Post>)
    requires posted == Posts(first) + [last]
    ensures posted != [] && |posted| <= 2 && posted[|posted| - 1] == last
  {
  }

  /**
   * A start that goes live leaves a live, consistent session whose window
   * offers only the stop button among the start and settings controls.
   */
  lemma StartedIsLive(s: Session, loginFile: Option<Config.LoginRecord>, streamCodeFile: Option<string>,
                      prefs: map<string, Config.Value>, catalog: seq<Theme>,
                      themeText: string, areaText: string, titleText: string,
                      titleResponse: Option<HttpResponse>, startResponse: Option<HttpResponse>,
                      outcome: Toggle, posted: seq<Api.Post>, session: Session,
                      prefsAfter: map<string, Config.Value>, loginAfter: Option<Config.LoginRecord>,
                      streamAfter: Option<string>)
    requires Usable(s) && !s.liveStarted
    requires StartState(s, loginFile, streamCodeFile, prefs, catalog, themeText, areaText, titleText,
                        titleResponse, startResponse, outcome, posted, session, prefsAfter, loginAfter, streamAfter)
    ensures outcome == Started || outcome == StartedWithoutCode <==> session.liveStarted
    ensures session.liveStarted ==> Consistent(session) && UiState(session).startText == StopCaption
                                    && streamAfter.Some? && loginAfter == loginFile
  {
    if session.liveStarted {
      LiveLocksSettings(session);
    }
  }

  /**
   * What the stop branch sends and leaves: one stop request with the room
   * id and csrf token, and after a confirmed stop a window that is no longer
   * live, has no stream details to copy and offers the start button again.
   */
  lemma StopPostsAndClears(s: Session, streamCodeFile: Option<string>, stopResponse: Option<HttpResponse>,
                           outcome: Toggle, posted: seq<Api.Post>, session: Session, streamAfter: Option<string>)
    requires Usable(s)
    requires StopState(s, streamCodeFile, stopResponse, outcome, posted, session, streamAfter)
    ensures posted == [Api.Post(Api.StopLiveForm(s.roomId.value, s.csrf.value), s.cookies.value)]
    ensures outcome == Stopped || outcome == StopFailed
    ensures outcome == Stopped ==>
              && Consistent(session) && !session.liveStarted && streamAfter.None?
              && UiState(session).startText == StartCaption && !UiState(session).copyAddr
  {
  }
}
