/** The web UI's shared interface state: the single toast, the locale, the
    bottom-navigation fix flag and the language list. The clock, the browser's
    local storage and the bundled locale tables are inputs or fields. */
module UiStore {
  import opened Wrappers
  import opened Strings
  import opened Seqs
  import opened Ordering
  import opened WebTypes

  const LANG_KEY := "lang"
  const FIX_NAV_KEY := "hm_fix_bottom_nav"

  /** The toast `showToast` puts up at clock time `now`. */
  function Shown(now: nat, text: string, kind: ToastKind): (r: Toast)
    ensures r.visible && r.id == Stamp(now) && r.text == text && r.kind == kind
  {
    Toast(Stamp(now), text, kind, true)
  }

  /** The toast after the expiry timer that captured `captured` fires: hidden,
      with id, text and kind kept, only if it is still the toast that timer
      was set for. */
  function Expired(t: Toast, captured: ToastId): (r: Toast)
    ensures r.id == t.id && r.text == t.text && r.kind == t.kind
    ensures !r.visible <==> !t.visible || t.id == captured
  {
    if t.id == captured then t.(visible := false) else t
  }

  /** A newer toast from another millisecond survives the older timer. */
  lemma OlderTimerSparesNewerToast(then_: nat, now: nat, text: string, kind: ToastKind)
    requires then_ != now
    ensures Expired(Shown(now, text, kind), Stamp(then_)) == Shown(now, text, kind)
  {
  }

  /** Two toasts in the same millisecond share an id, so the first one's timer
      hides the second. */
  lemma SameMillisecondTimerHidesNewerToast(now: nat, text: string, kind: ToastKind)
    ensures !Expired(Shown(now, text, kind), Stamp(now)).visible
  {
  }

  /** The text the flag is stored as. */
  function BoolText(b: bool): string {
    if b then "true" else "false"
  }

  /** The flag `init` reads back: set only by exactly "true". */
  function StoredFlag(stored: Option<string>): (r: bool)
    ensures r <==> stored == Some("true")
  {
    stored == Some("true")
  }

  /** What `toggleBottomNavFix` stores is read back by `init` as the same flag. */
  lemma StoredFlagRoundTrip(b: bool)
    ensures StoredFlag(Some(BoolText(b))) == b
  {
  }

  function Lookup(storage: map<string, string>, key: string): Option<string> {
    if key in storage then Some(storage[key]) else None
  }

  function EndsWithTest(suffix: string): string -> bool {
    path => EndsWith(path, suffix)
  }

  /** The locale table `loadLocale` loads: the first whose path ends with
      "/<code>.json", else the first en-US table, else none. */
  function LocaleChoice(paths: seq<string>, code: string): (r: Option<nat>)
    ensures r.Some? ==> r.value < |paths|
    ensures (exists i :: 0 <= i < |paths| && EndsWith(paths[i], "/" + code + ".json")) ==>
      r.Some? && EndsWith(paths[r.value], "/" + code + ".json")
      && forall i :: 0 <= i < r.value ==> !EndsWith(paths[i], "/" + code + ".json")
    ensures (forall i :: 0 <= i < |paths| ==> !EndsWith(paths[i], "/" + code + ".json")) ==>
      (r.Some? <==> exists i :: 0 <= i < |paths| && EndsWith(paths[i], "/en-US.json"))
      && (r.Some? ==> EndsWith(paths[r.value], "/en-US.json"))
  {
    match FirstMatch(paths, EndsWithTest("/" + code + ".json"))
    case Some(i) => Some(i)
    case None => FirstMatch(paths, EndsWithTest("/en-US.json"))
  }

  datatype Language = Language(code: string, name: string)

  const LANGUAGES: seq<Language> := [
    Language("en-US", "English"),
    Language("es-ES", "Español"),
    Language("ja-JP", "日本語"),
    Language("ru-RU", "Русский"),
    Language("uk-UA", "Українська"),
    Language("zh-CN", "简体中文"),
    Language("zh-TW", "繁體中文")
  ]

  /** The language comparator: en-US before everything, the rest by name
      under the given locale ordering. */
  function LanguageLe(nameLe: (string, string) -> bool): (Language, Language) -> bool {
    (a: Language, b: Language) => a.code == "en-US" || (b.code != "en-US" && nameLe(a.name, b.name))
  }

  lemma LanguageLeTotalPreorder(nameLe: (string, string) -> bool)
    requires TotalPreorder(nameLe)
    ensures TotalPreorder(LanguageLe(nameLe))
  {
    var le := LanguageLe(nameLe);
    forall x, y ensures le(x, y) || le(y, x) {
      if x.code != "en-US" && y.code != "en-US" {
        assert nameLe(x.name, y.name) || nameLe(y.name, x.name);
      }
    }
    forall x, y, z | le(x, y) && le(y, z) ensures le(x, z) {
      if x.code != "en-US" {
        assert nameLe(x.name, y.name) && nameLe(y.name, z.name);
      }
    }
  }

  /** `availableLanguages`: the table with English first and the others
      ordered by name. Stated for any table that, like `LANGUAGES`, lists each
      language once with English as its only en-US entry. */
  function AvailableLanguages(table: seq<Language>, nameLe: (string, string) -> bool): (r: seq<Language>)
    requires TotalPreorder(nameLe)
    requires NoDuplicates(table) && Language("en-US", "English") in table
    requires forall x :: x in table && x.code == "en-US" ==> x == Language("en-US", "English")
    ensures multiset(r) == multiset(table)
    ensures |r| == |table| && r[0] == Language("en-US", "English")
    ensures forall i, j :: 1 <= i < j < |r| ==> nameLe(r[i].name, r[j].name)
  {
    LanguageLeTotalPreorder(nameLe);
    SortBySorted(table, LanguageLe(nameLe));
    var r := SortBy(table, LanguageLe(nameLe));
    SortedLanguages(nameLe, table, r);
    r
  }

  /** The language table lists each language once, English first and the
      only one with code en-US. */
  lemma LanguagesTable()
    ensures |LANGUAGES| == 7 && LANGUAGES[0] == Language("en-US", "English")
    ensures Language("en-US", "English") in LANGUAGES
    ensures NoDuplicates(LANGUAGES)
    ensures forall x :: x in LANGUAGES && x.code == "en-US" ==> x == Language("en-US", "English")
  {
    var codes := seq(|LANGUAGES|, i requires 0 <= i < |LANGUAGES| => LANGUAGES[i].code);
    assert codes == ["en-US", "es-ES", "ja-JP", "ru-RU", "uk-UA", "zh-CN", "zh-TW"];
    assert forall i :: 1 <= i < |codes| ==> codes[i] != "en-US";
    assert NoDuplicates(codes);
  }

  /** A sorted arrangement of a language table that lists each language once
      and has English as its only en-US entry starts with English and orders
      the rest by name. */
  lemma SortedLanguages(nameLe: (string, string) -> bool, table: seq<Language>, r: seq<Language>)
    requires NoDuplicates(table) && Language("en-US", "English") in table
    requires forall x :: x in table && x.code == "en-US" ==> x == Language("en-US", "English")
    requires multiset(r) == multiset(table)
    requires SortedBy(r, LanguageLe(nameLe))
    ensures |r| == |table| && r[0] == Language("en-US", "English")
    ensures forall i, j :: 1 <= i < j < |r| ==> nameLe(r[i].name, r[j].name)
  {
    var english := Language("en-US", "English");
    assert |r| == |multiset(r)| == |table|;
    assert english in multiset(r);
    PermutationNoDuplicates(table, r);
    var k :| 0 <= k < |r| && r[k] == english;
    assert LanguageLe(nameLe)(r[0], r[k]) || k == 0;
    assert r[0] in multiset(table);
    assert r[0] == english;
    forall i | 1 <= i < |r|
      ensures r[i].code != "en-US"
    {
      assert r[i] in multiset(table);
      assert r[i] != r[0];
    }
    forall i, j | 1 <= i < j < |r|
      ensures nameLe(r[i].name, r[j].name)
    {
      assert LanguageLe(nameLe)(r[i], r[j]);
    }
  }

  class UiStore {
    var lang: string
    /** The path of the loaded locale table, if one was loaded. */
    var localePath: Option<string>
    /** The loaded table (`L`); empty before any load. */
    var locale: Locale
    var toast: Toast
    var fixBottomNav: bool
    var isReady: bool
    /** The browser's local storage. */
    var storage: map<string, string>

    constructor (storage: map<string, string>)
      ensures lang == "en-US" && localePath == None && locale == map[]
      ensures toast == Toast(InitialId, "", Info, false) && !fixBottomNav && !isReady
      ensures this.storage == storage
    {
      lang := "en-US";
      localePath := None;
      locale := map[];
      toast := Toast(InitialId, "", Info, false);
      fixBottomNav := false;
      isReady := false;
      this.storage := storage;
    }

    /** `toasts`: the toast when it is visible, else nothing. */
    function Toasts(): (r: seq<Toast>)
      reads this
      ensures |r| <= 1
      ensures r == [toast] <==> toast.visible
      ensures r == [] <==> !toast.visible
    {
      if toast.visible then [toast] else []
    }

    /** `showToast`: the toast is replaced; the returned id is the one its
        expiry timer captures. */
    method ShowToast(text: string, kind: ToastKind, now: nat) returns (timer: ToastId)
      modifies this
      ensures toast == Shown(now, text, kind) && timer == toast.id
      ensures lang == old(lang) && localePath == old(localePath) && locale == old(locale)
      ensures fixBottomNav == old(fixBottomNav) && isReady == old(isReady) && storage == old(storage)
    {
      toast := Toast(Stamp(now), text, kind, true);
      timer := toast.id;
    }

    /** The expiry timer of the toast with id `captured` fires. */
    method Expire(captured: ToastId)
      modifies this
      ensures toast == Expired(old(toast), captured)
      ensures lang == old(lang) && localePath == old(localePath) && locale == old(locale)
      ensures fixBottomNav == old(fixBottomNav) && isReady == old(isReady) && storage == old(storage)
    {
      if toast.id == captured {
        toast := toast.(visible := false);
      }
    }

    /** `loadLocale`: load the table `LocaleChoice` picks; with no table at
        all the loaded locale stays as it was. */
    method LoadLocale(code: string, paths: seq<string>, tableOf: string -> Locale)
      modifies this
      ensures LocaleChoice(paths, code).Some? ==>
        localePath == Some(paths[LocaleChoice(paths, code).value])
        && locale == tableOf(paths[LocaleChoice(paths, code).value])
      ensures LocaleChoice(paths, code).None? ==> localePath == old(localePath) && locale == old(locale)
      ensures lang == old(lang) && toast == old(toast) && fixBottomNav == old(fixBottomNav)
      ensures isReady == old(isReady) && storage == old(storage)
    {
      var choice := LocaleChoice(paths, code);
      if choice.Some? {
        localePath := Some(paths[choice.value]);
        locale := tableOf(paths[choice.value]);
      }
    }

    /** `setLang`: remember the language and load its table. */
    method SetLang(code: string, paths: seq<string>, tableOf: string -> Locale)
      modifies this
      ensures lang == code && storage == old(storage)[LANG_KEY := code]
      ensures LocaleChoice(paths, code).Some? ==> locale == tableOf(paths[LocaleChoice(paths, code).value])
      ensures LocaleChoice(paths, code).None? ==> locale == old(locale)
      ensures toast == old(toast) && fixBottomNav == old(fixBottomNav) && isReady == old(isReady)
    {
      lang := code;
      storage := storage[LANG_KEY := code];
      LoadLocale(code, paths, tableOf);
    }

    /** `toggleBottomNavFix`: flip the flag, store it as text and say so in an
        info toast. */
    method ToggleBottomNavFix(now: nat) returns (timer: ToastId)
      modifies this
      ensures fixBottomNav == !old(fixBottomNav)
      ensures storage == old(storage)[FIX_NAV_KEY := BoolText(fixBottomNav)]
      ensures StoredFlag(Lookup(storage, FIX_NAV_KEY)) == fixBottomNav
      ensures toast == Shown(now, if fixBottomNav then Message(locale, "config.fixBottomNavOn", "Bottom Nav Fix Enabled")
                                  else Message(locale, "config.fixBottomNavOff", "Bottom Nav Fix Disabled"), Info)
      ensures lang == old(lang) && locale == old(locale) && localePath == old(localePath) && isReady == old(isReady)
    {
      var newVal := !fixBottomNav;
      fixBottomNav := newVal;
      storage := storage[FIX_NAV_KEY := BoolText(newVal)];
      var msg := if newVal then Message(locale, "config.fixBottomNavOn", "Bottom Nav Fix Enabled")
                 else Message(locale, "config.fixBottomNavOff", "Bottom Nav Fix Disabled");
      timer := ShowToast(msg, Info, now);
    }

    /** `init`: the stored language (en-US when there is none or it is
        empty), its table, then the stored flag; ready only at the end. */
    method Init(paths: seq<string>, tableOf: string -> Locale)
      modifies this
      ensures lang == (if LANG_KEY in storage && storage[LANG_KEY] != "" then storage[LANG_KEY] else "en-US")
      ensures LocaleChoice(paths, lang).Some? ==> locale == tableOf(paths[LocaleChoice(paths, lang).value])
      ensures LocaleChoice(paths, lang).None? ==> locale == old(locale)
      ensures fixBottomNav == StoredFlag(Lookup(storage, FIX_NAV_KEY))
      ensures isReady && storage == old(storage) && toast == old(toast)
    {
      var saved := if LANG_KEY in storage && storage[LANG_KEY] != "" then storage[LANG_KEY] else "en-US";
      lang := saved;
      LoadLocale(saved, paths, tableOf);
      fixBottomNav := StoredFlag(Lookup(storage, FIX_NAV_KEY));
      isReady := true;
    }
  }
}
