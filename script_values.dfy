/**
 * What a script hands to, and receives from, the proxy layer: dynamically
 * typed values, the attribute keys of the generic `attr` dispatch, and the
 * classes of script exception the proxies raise.
 */
module ScriptValues {
  import opened Wrappers

  /** A script value as the Java side sees it (`Object`): null, a boxed
      integer, a string, a map (a script object) or an image object. */
  datatype Value =
    | Null
    | Int(i: int)
    | Str(s: string)
    | Bool(b: bool)
    | Dict(entries: map<string, Value>)
    | ImageObject(path: Option<string>)

  /** The attribute names understood by `attr(key)` / `attr(key, value)`;
      any other name is `OtherKey`. */
  datatype AttrKey =
    | TypeKey | IdKey | NameKey | DocumentationKey
    | BoundsKey | FillColorKey | OpacityKey | OutlineOpacityKey | GradientKey
    | FigureTypeKey | TextAlignmentKey | TextPositionKey | ShowIconKey
    | ImageSourceKey | ImagePositionKey | ImageKey
    | OtherKey(name: string)

  /** The classes of `ArchiScriptException` raised by the proxies. */
  datatype ScriptError = InvalidArgument | NotFound | TypeMismatch | UnsupportedOperation

  /** A string-or-null value as an optional string; other shapes have no string reading. */
  predicate IsText(v: Value) {
    v.Null? || v.Str?
  }

  function AsText(v: Value): Option<string>
    requires IsText(v)
  {
    if v.Str? then Some(v.s) else None
  }

  /** `ModelUtil.getIntValueFromMap`: the integer stored under `key`, or `default`
      when the key is absent or holds no integer. */
  function IntFromMap(m: map<string, Value>, key: string, default: int): int
  {
    if key in m && m[key].Int? then m[key].i else default
  }

  /** `ModelUtil.getStringValueFromMap` with a null default: the string stored
      under `key`, or none. */
  function StringFromMap(m: map<string, Value>, key: string): Option<string>
  {
    if key in m && m[key].Str? then Some(m[key].s) else None
  }
}
