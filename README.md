# Bilibili live-stream helper: a Dafny model of its session core

This project models the session logic of a desktop client for the Bilibili live-streaming platform. The client:

- logs in by QR code, polling the platform until the code is scanned and confirmed;
- keeps the resulting cookies, room id and csrf token as its session;
- saves that session to disk and restores it at the next start;
- lets the user pick a category from a catalog of themes, searched by name or by pinyin initials;
- updates the broadcast title;
- starts and stops the broadcast, showing and saving the stream address and code it receives.

The model is split into modules:

- `PyStr` and `PyDict` give Python's `str` operations and insertion-ordered `dict` the semantics the client relies on.
- `Payloads` holds the platform's answers as abstract records: a status code, the decoded JSON fields the client reads, and the cookies an answer sets.
- `BilibiliApi` is the platform client:
  - the cookie string codec and its round trip;
  - the QR poll;
  - the forms it posts;
  - how each answer becomes a result.
- `Partitions` is the category catalog (`PartitionManager`, a class). Its search is proved against a specification function. Its pinyin rule is proved equal to "the query's letters sit at increasing positions of the pinyin, the first at its start".
- `Config` is the preferences and session store (`ConfigManager`, a class). Its three files are fields holding their decoded contents.
- `Ui` holds the two windows as classes:
  - the login dialog, whose poll timer is a flag;
  - the main window, whose session and broadcast fields change through login, logout, title updates and start/stop.

  Which buttons are enabled is a pure function of the main window's state.

The network, the disk and Qt are outside the model. Every answer from the platform is a parameter (`Option<HttpResponse>`, where `None` is a request that raised). The text typed in a widget is a parameter too.

Three behaviours of the code are worth noting:

- **A failed login.** When room-id resolution fails after login, the code resets only `cookies` (src/ui/main_window.py:335). `room_id` and `csrf` keep their earlier values. `Ui.MainWindow.HandleLoginSuccess` states exactly that. The session still counts as logged out, because `cookies` is `None`.
- **A start answer without a stream code.** A start answer whose `rtmp` object has no `code` makes the log line `code[:10]` raise `TypeError` (src/ui/main_window.py:502). This happens after the broadcast is marked live and the stream-code file is written. `Ui.MainWindow.Launch` models that outcome as `StartedWithoutCode`: the settings are not saved. The final `_update_ui_state()` (src/ui/main_window.py:527) is skipped as well, so the real window keeps its pre-start controls while `live_started` is true. The model derives the controls from the state with `Ui.UiState`, so it does not capture that stale display.
- **The saved title.** After a successful start, `_save_current_settings` stores the title box as typed, without stripping it (src/ui/main_window.py:262). This overwrites the stripped title that the title update stored just before. `Ui.SavedSettings` keeps that order.

## Model

| member | source | states |
|---|---|---|
| PyStr.Lower | src/core/partition_manager.py:87 | `lower()` keeps the length and lower-cases each character; letters stay letters |
| PyStr.StripIsSlice | src/ui/main_window.py:406 | `strip()` returns a slice of its input, and everything cut off on either side is white space |
| PyStr.StripUnchanged | src/ui/main_window.py:406 | a string with no white space at either end is its own `strip()` |
| PyStr.Join | src/core/bilibili_api.py:77 | `sep.join` of one part is that part; the first part always starts the result |
| PyStr.SplitPieces | src/core/bilibili_api.py:83 | no piece of `split(sep)` contains `sep`, and joining the pieces with `sep` gives the string back |
| PyStr.SplitNoSep | src/core/bilibili_api.py:83 | a string without the separator splits into itself alone |
| PyStr.SplitConcat | src/core/bilibili_api.py:83 | splitting `a + sep + b` gives the pieces of `a` followed by the pieces of `b` |
| PyStr.Contains | src/ui/main_window.py:517 | `sub in s` (and `s.find(sub) != -1`) holds exactly when `sub` occurs at some position of `s` |
| PyStr.IntRoundTrip | src/core/config_manager.py:35-37 | `int(str(n)) == n` for every integer, so `save_cookies(str(room_id), …)` never raises |
| PyDict.GetSpec | src/core/bilibili_api.py:191 | `d.get(k)` is `None` exactly when `k` is not a key, and otherwise a value stored under `k` |
| PyDict.Put | src/core/bilibili_api.py:86 | `d[k] = v` appends a new key, keeps a present key in its place, and leaves every other item and position as it was |
| PyDict.GetPut | src/core/bilibili_api.py:86 | after `d[k] = v`, `k` reads as `v` and every other key reads as before |
| PyDict.GetFirst | src/core/bilibili_api.py:104-111 | in an item list with distinct keys, as in the form literals, a key reads as the value beside it |
| PyDict.Collect | src/core/bilibili_api.py:65-67 | a dict built by a loop of assignments never holds a key twice |
| PyDict.CollectLastWins | src/core/bilibili_api.py:65-67 | after the loop a key reads as `v` exactly when some pair assigns `v` to it and no later pair assigns to it again |
| PyDict.CollectAbsent | src/core/bilibili_api.py:81-86 | after the loop a key is absent exactly when no pair assigns to it |
| PyDict.CollectOfDict | src/core/bilibili_api.py:81-86 | assigning the items of a dict, in order, to an empty dict rebuilds it |
| PyDict.CollectAppend | src/core/bilibili_api.py:81-86 | assigning `xs` and then `ys`: a key reads as `ys` left it when `ys` assigns to it, and as `xs` left it otherwise |
| BilibiliApi.Items | src/core/bilibili_api.py:77 | the items of the cookie string are `name=value`, one per cookie, in dict order |
| BilibiliApi.CookiesDictToString | src/core/bilibili_api.py:75-77 | the cookie string is empty exactly when the dict is |
| BilibiliApi.SplitOnceSpec | src/core/bilibili_api.py:85 | `split("=", 1)` of a string holding `=` gives a key without `=` and the rest, which rejoin to the string |
| BilibiliApi.SplitPairSpec | src/core/bilibili_api.py:85 | the pair read from a segment: its key holds no `=`, and `key + "=" + value` is the stripped segment |
| BilibiliApi.CookiesStringToDict | src/core/bilibili_api.py:79-87 | the loop builds the dict of `ParseCookies`, with no repeated name |
| BilibiliApi.ParseSkipsSegmentWithoutEquals | src/core/bilibili_api.py:84 | a segment without `=` between two others changes nothing |
| BilibiliApi.ParseLaterWins | src/core/bilibili_api.py:83-86 | a name that occurs again later in the string takes the later value |
| BilibiliApi.CookieRoundTrip | src/core/bilibili_api.py:75-87 | parsing the cookie string of a dict gives the same dict back, in the same order, when no name or value holds `;` or the name `=`, names do not start with white space and values do not end with it |
| BilibiliApi.GetQrcodeData | src/core/bilibili_api.py:29-40 | the QR data is the answer's `data` exactly when it decodes with `code` 0 and has `data`; `None` otherwise |
| BilibiliApi.QrPoll | src/core/bilibili_api.py:49-73 | a failed request or a non-200 answer gives `(-1, None)`; otherwise the status is `data.code` (-1 when missing); cookies come back exactly with status 0, and they are the cookies the answer set, with the last one of each name winning |
| BilibiliApi.CheckQrLogin | src/core/bilibili_api.py:49-73 | the loop over the answer's cookies gives what `QrPoll` states |
| BilibiliApi.StartLiveForm | src/core/bilibili_api.py:104-111 | the start form carries the room id, platform `android_link`, the category id and the csrf token as both `csrf` and `csrf_token` |
| BilibiliApi.StopLiveForm | src/core/bilibili_api.py:132-137 | the stop form carries the room id, the platform and the csrf token twice |
| BilibiliApi.UpdateTitleForm | src/core/bilibili_api.py:160-166 | the title form carries the room id, the platform, the title and the csrf token twice |
| BilibiliApi.StartLive | src/core/bilibili_api.py:100-128 | the request sent is the start form with the session's cookies; success exactly when the answer decodes with `code` 0, returning its `data`; otherwise the whole decoded answer, or nothing when the request raised |
| BilibiliApi.StopLive | src/core/bilibili_api.py:130-151 | the request sent is the stop form with the session's cookies; success exactly when the answer decodes with `code` 0 |
| BilibiliApi.UpdateLiveTitle | src/core/bilibili_api.py:153-182 | a title over 20 characters is refused without building a request; otherwise the title form is sent with the session's cookies, and the call succeeds exactly when the answer has status 200 and `code` 0 |
| BilibiliApi.GetRoomIdAndCsrf | src/core/bilibili_api.py:184-208 | no `DedeUserID` cookie, or a request that raised, gives `(None, None)`; otherwise the csrf token is the `bili_jct` cookie; the room id is the answer's `data.room_id` exactly when the answer has `code` 0 and `data` |
| BilibiliApi.GetLiveAreas | src/core/bilibili_api.py:89-98 | a catalog comes back exactly from a status-200 answer, and it is that answer's document |
| Partitions.Pattern | src/core/partition_manager.py:82-89 | a pattern exists exactly for an alphabetic query, and it is the query lower-cased letter by letter |
| Partitions.AnchoredMatchIff | src/core/partition_manager.py:88-93 | `re.match` of `c1.*c2.*…`, ignoring case, holds exactly when the letters sit at increasing positions of the pinyin, the first at position 0 |
| Partitions.MatchPinyinIff | src/core/partition_manager.py:91-95 | the pinyin rule applies only to an alphabetic query, and then holds exactly when the lower-cased letters embed in the pinyin, anchored at its start |
| Partitions.Hits | src/core/partition_manager.py:55-69 | the search keeps at most the categories of the list |
| Partitions.HitsMembers | src/core/partition_manager.py:55-69 | a category is kept exactly when it is in the list and the query is in its name or matches its pinyin |
| Partitions.HitsAppend | src/core/partition_manager.py:55-69 | results keep list order: the hits of a concatenation are the concatenated hits |
| Partitions.FirstTheme | src/core/partition_manager.py:52-53 | the position of the first theme with the given name, or none when no theme has it |
| Partitions.SearchResultsMembers | src/core/partition_manager.py:44-72 | a category is a result exactly when the catalog and the query are non-empty, it belongs to the first theme so named, and the query hits it |
| Partitions.SearchIgnoresLaterThemes | src/core/partition_manager.py:70 | themes after the first one so named, even with the same name, do not change the results |
| Partitions.ExactId | src/core/partition_manager.py:77-80 | the id of the first entry named exactly `name`, `None` when there is none |
| Partitions.ExactIdOfHits | src/core/partition_manager.py:60 | a category named exactly like the query is always a hit, so the first exact id among the hits is the first in the list |
| Partitions.PartitionByNameIsFirstExact | src/core/partition_manager.py:74-80 | the id found is that of the first category of the first theme so named whose name is exactly `name`; nothing for an empty name or catalog |
| Partitions.Names | src/core/partition_manager.py:41 | one name per category, in list order |
| Partitions.PartitionManager.constructor | src/core/partition_manager.py:14-25 | the catalog is the `data` list of the catalog file, or empty when the file does not exist |
| Partitions.PartitionManager.GetAllThemes | src/core/partition_manager.py:27-31 | one name per theme, in catalog order, `""` for a theme without one |
| Partitions.PartitionManager.GetThemePartitions | src/core/partition_manager.py:33-42 | the category names of the first theme so named, and `[]` when there is none |
| Partitions.PartitionManager.SearchPartitions | src/core/partition_manager.py:44-72 | the scan returns exactly `SearchResults` of the catalog |
| Partitions.PartitionManager.GetPartitionByName | src/core/partition_manager.py:74-80 | the id returned is the first exact name match among the search results |
| Partitions.PartitionManager.UpdatePartitionData | src/core/partition_manager.py:97-108 | the catalog becomes the new document's `data` list |
| Config.StreamCodeTwoLines | src/core/config_manager.py:62-70 | the stream-code file is two lines, the labelled address and the labelled code, when neither holds a line break |
| Config.ConfigManager.constructor | src/core/config_manager.py:13-23 | the preferences are those of the preferences file, or empty |
| Config.ConfigManager.Get | src/core/config_manager.py:101-103 | a stored key reads as its value, and any other key as the default |
| Config.ConfigManager.Set | src/core/config_manager.py:105-107 | the key now reads as the value; every other key, and every file, is as before |
| Config.ConfigManager.SaveLoginData | src/core/config_manager.py:25-33 | the login file holds exactly the room id, cookie string and csrf token; nothing else changes |
| Config.ConfigManager.SaveCookies | src/core/config_manager.py:35-37 | raises (`None`) exactly when the room id text is not an integer, and then writes nothing; otherwise saves the parsed id |
| Config.ConfigManager.LoadLoginData | src/core/config_manager.py:39-47 | the saved login record, or `None` when there is no file |
| Config.ConfigManager.ClearLoginData | src/core/config_manager.py:49-56 | the login file is gone; nothing else changes |
| Config.ConfigManager.ClearCookies | src/core/config_manager.py:58-60 | same effect as `ClearLoginData` |
| Config.ConfigManager.SaveStreamCode | src/core/config_manager.py:62-70 | the stream-code file holds the labelled address and code; nothing else changes |
| Config.ConfigManager.ClearStreamCode | src/core/config_manager.py:72-79 | the stream-code file is gone; nothing else changes |
| Config.ConfigManager.SaveConfig | src/core/config_manager.py:81-89 | the preferences file holds the given preferences when some are given (even empty ones), and the in-memory preferences otherwise |
| Config.ConfigManager.LoadConfig | src/core/config_manager.py:91-99 | the preferences file's contents, or empty when there is none |
| Ui.LoginDialog.constructor | src/ui/main_window.py:37-71 | polling starts exactly when the QR data has both `url` and `qrcode_key` and the image was drawn; the key is kept whenever the data has both |
| Ui.LoginDialog.CheckLoginStatus | src/ui/main_window.py:73-95 | without a key nothing changes. Status 0 with non-empty cookies stops the timer and signals those cookies; 86038 and -1 stop the timer; 86090 and 86101 only change the status line; any other status changes nothing. A signalled dialog has stopped polling |
| Ui.LoginDialog.CloseEvent | src/ui/main_window.py:97-99 | closing stops the timer and changes nothing else |
| Ui.UiState | src/ui/main_window.py:264-300 | login is enabled exactly when logged out, and logout and start exactly when logged in; title and category controls exactly when logged in and not live; copy buttons exactly when live with a non-empty address and code |
| Ui.LiveLocksSettings | src/ui/main_window.py:288-293 | while live, logout and stop are offered, and login, title and category controls are not |
| Ui.SignedOutControls | src/ui/main_window.py:264-300 | after logout only the login button is enabled |
| Ui.SessionRoundTrip | src/ui/main_window.py:220-232 | a session saved at login is restored unchanged at the next start, when its cookie names are distinct and satisfy `CookieSafe`: no name or value holds `;`, no name holds `=`, no name starts with white space and no value ends with it |
| Ui.RefreshedThemes | src/ui/main_window.py:339-373 | the category list changes only when the session has cookies and the catalog request gave a status-200 document, and then it is that document's themes; with cookies and a non-empty status-200 document it always becomes that document's themes |
| Ui.SavedSettings | src/ui/main_window.py:258-262 | the settings store the theme, the category and the title as typed, and leave every other preference as it was |
| Ui.MainWindow.constructor | src/ui/main_window.py:105-123 | signed out without a login file; otherwise the saved session is restored and the category list refreshed with it |
| Ui.MainWindow.OnLoginSuccess | src/ui/main_window.py:339-374 | the category list is as `RefreshedThemes` states |
| Ui.MainWindow.HandleLoginSuccess | src/ui/main_window.py:308-337 | the session is taken over exactly when the room id and csrf token come back truthy. It is then saved if `auto_save_cookies` is on, which is the default, and the category list is refreshed. Otherwise only the cookies are dropped and nothing is saved |
| Ui.MainWindow.AutoSave | src/ui/main_window.py:322-326 | with `auto_save_cookies` on, the login file holds the room id, cookie string and csrf token; with it off, the file is untouched |
| Ui.MainWindow.Logout | src/ui/main_window.py:376-390 | the session is the signed-out state whatever it was, so logging out twice is logging out once; the login and stream-code files are removed |
| Ui.MainWindow.UpdateLiveTitle | src/ui/main_window.py:400-426 | a request is sent exactly when the session is usable and the stripped title is non-empty and at most 20 characters. The request is the title form with the session's cookies. A title the platform accepts is remembered as `last_title` |
| Ui.MainWindow.ToggleLiveStream | src/ui/main_window.py:428-527 | nothing is sent and nothing changes on an unusable session; a live session goes through the stop branch as `StopState` states, and one that is not live through the start branch as `StartState` states; every path keeps the window consistent |
| Ui.MainWindow.StopStream | src/ui/main_window.py:434-450 | the stop request is sent; it stops exactly when the platform confirms, and then live is off, the stream details are gone and the stream-code file removed; on failure nothing changes |
| Ui.MainWindow.StartStream | src/ui/main_window.py:452-525 | the start branch ends as `StartState` states for the catalog, preferences and files it started from |
| Ui.StartPostsCategory | src/ui/main_window.py:452-490 | the start branch sends nothing exactly when it refuses for want of a category; otherwise the last request is the start form with the room id, the csrf token and the id of the first exact name match; it never reports a stop outcome |
| Ui.StartedIsLive | src/ui/main_window.py:492-504 | the broadcast is live after the start branch exactly when it reports a start; the session is then consistent, the stream-code file written, and the button offers stop |
| Ui.StopPostsAndClears | src/ui/main_window.py:434-450 | the stop branch sends one stop form with the room id and csrf token; a confirmed stop leaves a consistent window that is not live, has nothing to copy and offers start again |
| Ui.TitleStep | src/ui/main_window.py:469-473 | a title request is sent exactly for a non-empty stripped title of at most 20 characters; it is the title form with the session's cookies, and it succeeds exactly when the answer has status 200 and `code` 0 |
| Ui.MainWindow.SetTitleBeforeStart | src/ui/main_window.py:468-483 | the requests sent are those of `TitleStep`, and the title is stored as `last_title` exactly when that request succeeds |
| Ui.MainWindow.Launch | src/ui/main_window.py:488-525 | the start form is sent in the given category. A start with stream details goes live and shows and saves them; the settings are saved unless the code is missing. A failed start whose message names a rejected credential logs out; any other failure changes nothing |
| Ui.MainWindow.SaveCurrentSettings | src/ui/main_window.py:258-262 | the preferences are as `SavedSettings` states |
| Ui.MainWindow.CloseEvent | src/ui/main_window.py:554-563 | the geometry and current settings join the preferences, and the preferences file then holds all of them |

## Left out

- HTTP requests, JSON encoding and decoding, and the `Set-Cookie` handling of `requests` are not modelled. An answer is given as its status, the decoded fields the client reads, and the cookies it set.
- Request URLs and headers are not modelled. A session-backed request (`BilibiliApi.Post`) is its form and the cookies sent with it.
- JSON values of an unexpected type are not modelled. This covers a `data`, `rtmp` or `message` that is `null` or not an object or string, and a `room_id` that is not an integer. The `AttributeError` or `TypeError` such values would raise is not modelled either.
- Python's `False == 0` is not modelled. Codes are integers or absent.
- Disk I/O is not modelled. A file is its decoded contents, writes and removals always succeed, and JSON written and read back is the same value.
- The `except` branch of `_load_saved_data` is not modelled: a login record always has its three keys and an integer room id.
- Qt widgets, message boxes, the clipboard, the log pane, window geometry and the `QTimer` scheduling are not modelled. The timer is a flag, and the enabled state of the buttons is a function of the window's state.
- Filling the theme and category combo boxes (`update_area_combo`, and the combo updates in `_on_login_success` and `_load_saved_data`) is not modelled. Their texts are parameters.
- The Qt signal that connects the login dialog to `handle_login_success` is not modelled. The dialog records the cookies it emitted, and the window's handler takes cookies as a parameter.
- Ui.MainWindow.HandleLoginSuccess: requires that the login button is enabled, i.e. the window is logged out. This is the only way the dialog opens.
- `copy_server_address` and `copy_stream_code` are not modelled. They only use the clipboard.
- `get_qrcode` (src/core/bilibili_api.py:42-47) is not modelled. It has no logic beyond the request.
- src/utils/qr_generator.py and src/utils/helpers.py are not part of this model. Whether the QR image was drawn is a parameter of the dialog.
- main.py is not part of this model. It is the entry point only.
- `str.isalpha` is approximated by ASCII letters plus the CJK unified ideographs. `str.lower` is approximated by ASCII case mapping. `str.isspace` covers the characters Python treats as white space.
- Regex `.` not matching a line break is not modelled. The pinyin pattern's `.*` skips any characters.
- `int()` is modelled only on optional white space, an optional sign and ASCII digits. Other forms Python accepts are not modelled.
