/**
 * The preferences and session store (`ConfigManager`): an in-memory key/value
 * map of preferences, and three files in the data directory (the login record,
 * the stream-code text and the saved preferences). A file is modelled by its
 * decoded contents, `None` when it does not exist; writing is assumed to succeed.
 */
module Config {
  import opened Wrappers
  import opened PyStr

  /** The JSON values the client stores as preferences. */
  datatype Value = VNull | VBool(b: bool) | VInt(i: int) | VStr(s: string) | VList(items: seq<Value>)

  /** Python truthiness of a stored value. */
  predicate Truthy(v: Value) {
    match v
    case VNull => false
    case VBool(b) => b
    case VInt(i) => i != 0
    case VStr(s) => s != []
    case VList(items) => items != []
  }

  /** The contents of the login file: exactly the keys `room_id`, `cookies` and `csrf`. */
  datatype LoginRecord = LoginRecord(roomId: int, cookies: string, csrf: string)

  const AddrLabel: string := "服务器地址："
  const CodeLabel: string := "推流码："

  /** The text of the stream-code file. */
  function StreamCodeText(addr: string, code: string): string {
    AddrLabel + addr + "\n" + CodeLabel + code
  }

  /**
   * The stream-code text is exactly two lines, the labelled address and the
   * labelled code, as long as neither value holds a line break.
   */
  lemma StreamCodeTwoLines(addr: string, code: string)
    requires '\n' !in addr && '\n' !in code
    ensures Split(StreamCodeText(addr, code), '\n') == [AddrLabel + addr, CodeLabel + code]
  {
    var first, second := AddrLabel + addr, CodeLabel + code;
    assert StreamCodeText(addr, code) == first + ['\n'] + second;
    assert '\n' !in first by {
      assert forall i :: 0 <= i < |first| ==> first[i] == (if i < |AddrLabel| then AddrLabel[i] else addr[i - |AddrLabel|]);
    }
    assert '\n' !in second by {
      assert forall i :: 0 <= i < |second| ==> second[i] == (if i < |CodeLabel| then CodeLabel[i] else code[i - |CodeLabel|]);
    }
    SplitConcat(first, '\n', second);
    SplitNoSep(first, '\n');
    SplitNoSep(second, '\n');
  }

  class ConfigManager {
    /** `_config_data`: the preferences in memory. */
    var configData: map<string, Value>
    /** `cookies.json`. */
    var loginFile: Option<LoginRecord>
    /** `stream_code.txt`. */
    var streamCodeFile: Option<string>
    /** `config.json`. */
    var configFile: Option<map<string, Value>>

    /** `__init__`: the files as found on disk; the preferences are those of `config.json`, or none. */
    constructor(loginOnDisk: Option<LoginRecord>, streamCodeOnDisk: Option<string>,
                configOnDisk: Option<map<string, Value>>)
      ensures loginFile == loginOnDisk && streamCodeFile == streamCodeOnDisk && configFile == configOnDisk
      ensures configData == configOnDisk.GetOr(map[])
    {
      loginFile := loginOnDisk;
      streamCodeFile := streamCodeOnDisk;
      configFile := configOnDisk;
      configData := configOnDisk.GetOr(map[]);
    }

    /** `get`: the stored value of `key`, or `default` when the key is absent. */
    function Get(key: string, default: Value): (v: Value)
      reads this
      ensures key in configData ==> v == configData[key]
      ensures key !in configData ==> v == default
    {
      if key in configData then configData[key] else default
    }

    /** `set`: `key` now reads as `value`; every other key, and every file, is as before. */
    method Set(key: string, value: Value)
      modifies this
      ensures configData == old(configData)[key := value]
      ensures forall d :: Get(key, d) == value
      ensures forall k, d :: k != key ==> Get(k, d) == old(Get(k, d))
      ensures loginFile == old(loginFile) && streamCodeFile == old(streamCodeFile) && configFile == old(configFile)
    {
      configData := configData[key := value];
    }

    /** `save_login_data`: the login file holds exactly these three fields. */
    method SaveLoginData(roomId: int, cookiesStr: string, csrf: string) returns (ok: bool)
      modifies this
      ensures ok && loginFile == Some(LoginRecord(roomId, cookiesStr, csrf))
      ensures configData == old(configData) && streamCodeFile == old(streamCodeFile) && configFile == old(configFile)
    {
      loginFile := Some(LoginRecord(roomId, cookiesStr, csrf));
      ok := true;
    }

    /**
     * `save_cookies`: the room id arrives as text and is converted with `int`
     * first. `None` is the `ValueError` that escapes when it is not a number;
     * then nothing is written.
     */
    method SaveCookies(roomId: string, cookiesStr: string, csrf: string) returns (result: Option<bool>)
      modifies this
      ensures result.None? <==> ParseInt(roomId).None?
      ensures result.None? ==> loginFile == old(loginFile)
      ensures result.Some? ==> result.value && loginFile == Some(LoginRecord(ParseInt(roomId).value, cookiesStr, csrf))
      ensures configData == old(configData) && streamCodeFile == old(streamCodeFile) && configFile == old(configFile)
    {
      match ParseInt(roomId)
      case None =>
        result := None;
      case Some(id) =>
        var ok := SaveLoginData(id, cookiesStr, csrf);
        result := Some(ok);
    }

    /** `load_login_data`: the record in the login file, `None` when there is none. */
    method LoadLoginData() returns (record: Option<LoginRecord>)
      ensures record == loginFile
    {
      record := loginFile;
    }

    /** `clear_login_data`: the login file is gone. */
    method ClearLoginData() returns (ok: bool)
      modifies this
      ensures ok && loginFile.None?
      ensures configData == old(configData) && streamCodeFile == old(streamCodeFile) && configFile == old(configFile)
    {
      loginFile := None;
      ok := true;
    }

    /** `clear_cookies`: the older name of `clear_login_data`. */
    method ClearCookies() returns (ok: bool)
      modifies this
      ensures ok && loginFile.None?
      ensures configData == old(configData) && streamCodeFile == old(streamCodeFile) && configFile == old(configFile)
    {
      ok := ClearLoginData();
    }

    /** `save_stream_code`: the stream-code file holds the two labelled lines. */
    method SaveStreamCode(rtmpAddr: string, rtmpCode: string) returns (ok: bool)
      modifies this
      ensures ok && streamCodeFile == Some(StreamCodeText(rtmpAddr, rtmpCode))
      ensures configData == old(configData) && loginFile == old(loginFile) && configFile == old(configFile)
    {
      streamCodeFile := Some(StreamCodeText(rtmpAddr, rtmpCode));
      ok := true;
    }

    /** `clear_stream_code`: the stream-code file is gone. */
    method ClearStreamCode() returns (ok: bool)
      modifies this
      ensures ok && streamCodeFile.None?
      ensures configData == old(configData) && loginFile == old(loginFile) && configFile == old(configFile)
    {
      streamCodeFile := None;
      ok := true;
    }

    /**
     * `save_config`: writes the given preferences when there are some (even
     * an empty map), and the in-memory preferences otherwise.
     */
    method SaveConfig(config: Option<map<string, Value>>) returns (ok: bool)
      modifies this
      ensures ok
      ensures config.Some? ==> configFile == config
      ensures config.None? ==> configFile == Some(configData)
      ensures configData == old(configData) && loginFile == old(loginFile) && streamCodeFile == old(streamCodeFile)
    {
      var dataToSave := if config.Some? then config.value else configData;
      configFile := Some(dataToSave);
      ok := true;
    }

    /** `load_config`: the preferences of `config.json`, or none when it does not exist. */
    method LoadConfig() returns (config: map<string, Value>)
      ensures configFile.Some? ==> config == configFile.value
      ensures configFile.None? ==> config == map[]
    {
      config := configFile.GetOr(map[]);
    }
  }
}
