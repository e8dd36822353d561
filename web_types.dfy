/** Values the web UI passes around: the editable configuration, module
    records, toasts and locale tables. JSON serialisation is structural
    equality of these values. */
module WebTypes {
  import opened Wrappers

  /** A configuration field's value. */
  datatype ConfigValue = BoolValue(b: bool) | TextValue(text: string) | ListValue(items: seq<string>)

  /** The configuration object: field name to value. */
  type AppConfig = map<string, ConfigValue>

  /** JavaScript truthiness of a field; an absent field is `undefined`. */
  function Truthy(v: Option<ConfigValue>): (r: bool)
    ensures v == Some(BoolValue(true)) ==> r
    ensures v.None? || v == Some(BoolValue(false)) || v == Some(TextValue("")) ==> !r
  {
    match v
    case None => false
    case Some(BoolValue(b)) => b
    case Some(TextValue(s)) => s != ""
    case Some(ListValue(_)) => true
  }

  function Field(c: AppConfig, key: string): Option<ConfigValue> {
    if key in c then Some(c[key]) else None
  }

  /** A locale table, with nested keys written "section.key". */
  type Locale = map<string, string>

  /** `L.section?.key || fallback`: an absent or empty entry gives the fallback. */
  function Message(l: Locale, key: string, fallback: string): (r: string)
    ensures key in l && l[key] != "" ==> r == l[key]
    ensures !(key in l && l[key] != "") ==> r == fallback
  {
    if key in l && l[key] != "" then l[key] else fallback
  }

  /** `L.section?.key ?? fallback`: only an absent entry gives the fallback. */
  function MessageOrNull(l: Locale, key: string, fallback: string): (r: string)
    ensures key in l ==> r == l[key]
    ensures key !in l ==> r == fallback
  {
    if key in l then l[key] else fallback
  }

  datatype ToastKind = Info | Success | Error

  /** A toast's id: the initial "init", or the millisecond clock's decimal text. */
  datatype ToastId = InitialId | Stamp(ms: nat)

  datatype Toast = Toast(id: ToastId, text: string, kind: ToastKind, visible: bool)

  /** A module's mount rules as the web UI edits them. */
  datatype Rules = Rules(defaultMode: string, paths: map<string, string>)

  /** A module as the web UI lists it. */
  datatype WebModule = WebModule(id: string, name: string, isMounted: bool, mode: string, rules: Rules)
}
