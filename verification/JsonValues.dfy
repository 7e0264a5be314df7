/**
 * JSON values with the accessors of `nlohmann::json` that the event parsers call, and the two
 * text formats that the model leaves open.
 */
module JsonValues {
  import opened Wrappers

  /** Stands for the texts of the accessors' errors, which are plain ASCII. */
  const JSON_ERROR := "json.exception"

  datatype Json =
    | Null
    | Bool(b: bool)
    | Number(digits: string)
    | Str(s: string)
    | Arr(items: seq<Json>)
    | Obj(fields: map<string, Json>)
  {
    /** `contains(key)` and `count(key) != 0`: false for everything that is not an object. */
    predicate Has(key: string) {
      Obj? && key in fields
    }

    /** `at(key)`. */
    function At(key: string): Result<Json> {
      if Has(key) then Ok(fields[key]) else Thrown(JSON_ERROR)
    }

    /** `get<std::string>()`. */
    function Text(): Result<string> {
      if Str? then Ok(s) else Thrown(JSON_ERROR)
    }

    /** `value(key, default)` for a JSON default. */
    function ValueOr(key: string, default: Json): Result<Json> {
      if !Obj? then Thrown(JSON_ERROR) else if key in fields then Ok(fields[key]) else Ok(default)
    }

    /** `value(key, default)` for a text default: a value of another type is an error. */
    function TextOr(key: string, default: string): Result<string> {
      if !Obj? then Thrown(JSON_ERROR) else if key in fields then fields[key].Text() else Ok(default)
    }

    /** `(*this)[key] = value`: null becomes an object, other values are errors. */
    function With(key: string, value: Json): Result<Json> {
      match this
      case Null => Ok(Obj(map[key := value]))
      case Obj(fields) => Ok(Obj(fields[key := value]))
      case _ => Thrown(JSON_ERROR)
    }
  }

  /** A point in time, as RFC 3339 parsing delivers it. */
  type Time = int

  /**
   * The text formats. Nothing is known about them but that each is a function: every lemma holds
   * for whatever JSON reader, JSON printer, RFC 3339 reader and UTF-8 check the program is linked
   * with. The check is what printing a text as JSON fails on.
   */
  datatype Platform = Platform(
    parseJson: string -> Result<Json>,
    dumpJson: Json -> string,
    parseTime: string -> Result<Time>,
    validUtf8: string -> bool)
}
