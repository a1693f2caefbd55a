/** The front end's translator: three tables of interface strings, the current language,
    and the three operations that select a language and look strings up. Writing the
    strings into the page is left to the caller. */
module I18n {
  import opened Text

  /** `i18n.dict.zh`, `i18n.dict.en` and `i18n.dict.jp`. */
  const Zh: map<string, string> := map[
    "run" := "运行",
    "history" := "历史",
    "temp" := "Temp",
    "clear" := "清空",
    "timeout_enable" := "启用超时保护",
    "timeout" := "超时(s)",
    "modules" := "模块解析",
    "stdout" := "stdout",
    "stderr" := "stderr",
    "files" := "操作/历史",
    "no_output" := "无输出",
    "no_error" := "无错误",
    "click_load" := "（点击历史或 TempFiles）",
    "msg_done" := "执行完成 ✔",
    "msg_error" := "执行失败",
    "msg_network" := "网络错误",
    "settings" := "设置",
    "about" := "关于",
    "theme_light" := "亮色",
    "theme_dark" := "暗色",
    "theme_auto" := "跟随系统",
    "language" := "语言",
    "save_done" := "设置已保存 ✔",
    "no_import" := "未检测到 import",
    "file_none" := "暂无临时文件",
    "file_loaded" := "已加载到编辑器",
    "sidebar_collapse" := "折叠",
    "sidebar_expand" := "展开"
  ]

  const En: map<string, string> := map[
    "run" := "Run",
    "history" := "History",
    "temp" := "Temp",
    "clear" := "Clear",
    "timeout_enable" := "Enable Timeout",
    "timeout" := "Timeout(s)",
    "modules" := "Modules",
    "stdout" := "stdout",
    "stderr" := "stderr",
    "files" := "Files/History",
    "no_output" := "No Output",
    "no_error" := "No Error",
    "click_load" := "(Click History or TempFiles)",
    "msg_done" := "Execution Done ✔",
    "msg_error" := "Execution Failed",
    "msg_network" := "Network Error",
    "settings" := "Settings",
    "about" := "About",
    "theme_light" := "Light",
    "theme_dark" := "Dark",
    "theme_auto" := "Auto",
    "language" := "Language",
    "save_done" := "Settings Saved ✔",
    "no_import" := "No imports detected",
    "file_none" := "No temporary files",
    "file_loaded" := "Loaded to editor",
    "sidebar_collapse" := "Collapse",
    "sidebar_expand" := "Expand"
  ]

  const Jp: map<string, string> := map[
    "run" := "実行",
    "history" := "履歴",
    "temp" := "Temp",
    "clear" := "クリア",
    "timeout_enable" := "タイムアウト有効",
    "timeout" := "タイムアウト(s)",
    "modules" := "モジュール解析",
    "stdout" := "stdout",
    "stderr" := "stderr",
    "files" := "操作/履歴",
    "no_output" := "出力なし",
    "no_error" := "エラーなし",
    "click_load" := "（履歴または TempFiles をクリック）",
    "msg_done" := "実行完了 ✔",
    "msg_error" := "実行失敗",
    "msg_network" := "ネットワークエラー",
    "settings" := "設定",
    "about" := "情報",
    "theme_light" := "ライト",
    "theme_dark" := "ダーク",
    "theme_auto" := "システムに合わせる",
    "language" := "言語",
    "save_done" := "設定を保存 ✔",
    "no_import" := "import は検出されません",
    "file_none" := "一時ファイルなし",
    "file_loaded" := "エディタに読み込みました",
    "sidebar_collapse" := "折りたたむ",
    "sidebar_expand" := "展開"
  ]
  /** `i18n.dict`: language code to table. */
  const Dict: map<string, map<string, string>> := map["zh" := Zh, "en" := En, "jp" := Jp]

  /** The translator state: `i18n.current`. */
  datatype Translator = Translator(current: string)

  /** The state the module is loaded with. */
  const Loaded: Translator := Translator("zh")

  /** The current language names a table. */
  predicate Valid(s: Translator)
  {
    s.current in Dict
  }

  /** The languages are exactly zh, en and jp, and the loaded state is one of them. */
  lemma LanguagesAreThree()
    ensures Dict.Keys == {"zh", "en", "jp"}
    ensures Valid(Loaded)
  {
  }

  /** `i18n.init` without the page update: the browser language, lower-cased, selects
      Chinese by the prefix "zh", Japanese by the prefix "ja" (stored as "jp"), and
      English otherwise. */
  function Init(navigatorLanguage: string): (s: Translator)
    ensures Valid(s)
    ensures s.current == "zh" <==> StartsWith(Lower(navigatorLanguage), "zh")
    ensures s.current == "jp" <==> !StartsWith(Lower(navigatorLanguage), "zh")
                                   && StartsWith(Lower(navigatorLanguage), "ja")
    ensures s.current == "en" <==> !StartsWith(Lower(navigatorLanguage), "zh")
                                   && !StartsWith(Lower(navigatorLanguage), "ja")
  {
    var lang := Lower(navigatorLanguage);
    if StartsWith(lang, "zh") then Translator("zh")
    else if StartsWith(lang, "ja") then Translator("jp")
    else Translator("en")
  }

  /** `i18n.set` without the page update: switches to `lang` when it has a table and
      otherwise changes nothing. */
  function Set(s: Translator, lang: string): (r: Translator)
    ensures lang in Dict ==> r.current == lang
    ensures lang !in Dict ==> r == s
    ensures Valid(s) ==> Valid(r)
  {
    if lang in Dict then Translator(lang) else s
  }

  /** Selecting the same language twice is the same as selecting it once. */
  lemma SetIdempotent(s: Translator, lang: string)
    ensures Set(Set(s, lang), lang) == Set(s, lang)
  {
  }

  /** A page session: `init` with the browser language, then `set` for each choice. */
  function Session(navigatorLanguage: string, choices: seq<string>): (s: Translator)
    ensures Valid(s)
  {
    if choices == [] then Init(navigatorLanguage)
    else Set(Session(navigatorLanguage, choices[..|choices| - 1]), choices[|choices| - 1])
  }

  /** When no choice has a table, the session keeps the language `init` picked. */
  lemma {:induction false} SessionWithoutValidChoice(navigatorLanguage: string, choices: seq<string>)
    requires forall j :: 0 <= j < |choices| ==> choices[j] !in Dict
    ensures Session(navigatorLanguage, choices) == Init(navigatorLanguage)
  {
    if choices != [] {
      var init := choices[..|choices| - 1];
      assert forall j :: 0 <= j < |init| ==> init[j] == choices[j];
      SessionWithoutValidChoice(navigatorLanguage, init);
    }
  }

  /** After a session the current language is the last choice that has a table. */
  lemma {:induction false} SessionKeepsLastValidChoice(navigatorLanguage: string, choices: seq<string>, i: int)
    requires 0 <= i < |choices| && choices[i] in Dict
    requires forall j :: i < j < |choices| ==> choices[j] !in Dict
    ensures Session(navigatorLanguage, choices).current == choices[i]
  {
    if i < |choices| - 1 {
      var init := choices[..|choices| - 1];
      assert forall j :: 0 <= j < |init| ==> init[j] == choices[j];
      SessionKeepsLastValidChoice(navigatorLanguage, init, i);
    }
  }

  /** `i18n.t`: the current table's string for `key` when it is present and non-empty
      (JavaScript's `||` also skips the empty string), and `key` itself otherwise. The
      result is empty only for the empty key. */
  function T(s: Translator, key: string): (r: string)
    requires Valid(s)
    ensures key in Dict[s.current] && Dict[s.current][key] != "" ==> r == Dict[s.current][key]
    ensures !(key in Dict[s.current] && Dict[s.current][key] != "") ==> r == key
    ensures r == "" ==> key == ""
  {
    var table := Dict[s.current];
    if key in table && table[key] != "" then table[key] else key
  }

  /** The three tables have the same keys. */
  lemma TableKeysAgree()
    ensures Zh.Keys == En.Keys == Jp.Keys
  {
  }

  /** No table holds an empty string. */
  lemma TableValuesNonEmpty()
    ensures forall k :: k in Zh ==> Zh[k] != ""
    ensures forall k :: k in En ==> En[k] != ""
    ensures forall k :: k in Jp ==> Jp[k] != ""
  {
    NoEmptyString(Zh);
    NoEmptyString(En);
    NoEmptyString(Jp);
  }

  lemma NoEmptyString(table: map<string, string>)
    requires "" !in table.Values
    ensures forall k :: k in table ==> table[k] != ""
  {
    forall k | k in table ensures table[k] != "" {
      assert table[k] in table.Values;
    }
  }

  /** The three tables have the same keys and no empty string. */
  lemma TablesAgree()
    ensures Zh.Keys == En.Keys == Jp.Keys
    ensures forall lang, k :: lang in Dict && k in Dict[lang] ==> Dict[lang][k] != ""
  {
    TableKeysAgree();
    TableValuesNonEmpty();
    forall lang, k | lang in Dict && k in Dict[lang] ensures Dict[lang][k] != "" {
      assert lang in {"zh", "en", "jp"};
      if lang == "zh" {
        assert Dict[lang] == Zh;
      } else if lang == "en" {
        assert Dict[lang] == En;
      } else {
        assert Dict[lang] == Jp;
      }
    }
  }

  /** A key of the Chinese table is translated in every language, never echoed back as
      a fallback. */
  lemma KnownKeyTranslated(s: Translator, key: string)
    requires Valid(s)
    requires key in Zh
    ensures key in Dict[s.current]
    ensures T(s, key) == Dict[s.current][key]
  {
    TablesAgree();
  }

  /** Members every plain JavaScript object inherits from `Object.prototype`. Looking one
      of them up on `i18n.dict` yields a function or an object, both truthy. */
  const ObjectPrototypeMembers: set<string> := {
    "constructor", "__proto__", "hasOwnProperty", "isPrototypeOf", "propertyIsEnumerable",
    "toLocaleString", "toString", "valueOf",
    "__defineGetter__", "__defineSetter__", "__lookupGetter__", "__lookupSetter__"
  }

  /** `this.dict[lang]` is truthy: `lang` is an own table or an inherited member. */
  predicate DictLookupTruthy(lang: string)
  {
    lang in Dict || lang in ObjectPrototypeMembers
  }

  /** `i18n.set` as the guard `if (this.dict[lang])` reads in JavaScript: inherited
      members pass the guard as well as the three tables. */
  function SetAsWritten(s: Translator, lang: string): (r: Translator)
    ensures DictLookupTruthy(lang) ==> r.current == lang
    ensures !DictLookupTruthy(lang) ==> r == s
  {
    if DictLookupTruthy(lang) then Translator(lang) else s
  }

  /** The guard as written lets "constructor" through: from any state `init` produces,
      `set("constructor")` leaves a current language that names no table, so `t` no
      longer reads any of the three tables. */
  lemma SetAsWrittenBreaksValidity(navigatorLanguage: string)
    ensures Valid(Init(navigatorLanguage))
    ensures !Valid(SetAsWritten(Init(navigatorLanguage), "constructor"))
  {
  }

  /** The corrected guard (an own-table check) agrees with the written one on every
      language that has a table and rejects every inherited member. */
  lemma SetAgreesWithWrittenOnTables(s: Translator, lang: string)
    ensures lang in Dict ==> Set(s, lang) == SetAsWritten(s, lang)
    ensures lang in ObjectPrototypeMembers ==> Set(s, lang) == s
  {
  }
}
