/**
  Acknowledgement values and their normaliser (src/audit/ack-types.ts), with the JSON
  values that audit payloads, contexts and answers are made of.
 */
module AckTypes {
  import opened Wrappers

  /**
    The text of a number that is not printed as digits alone: it has a fraction or an exponent. Different
    numbers have different texts (section 6.1.6.1.20 of ECMA-262).
   */
  predicate IsDecimal(s: string)
  {
    && |s| > 0 && (s[0] == '-' || '0' <= s[0] <= '9')
    && (forall i :: 0 <= i < |s| ==> '0' <= s[i] <= '9' || s[i] in {'-', '+', '.', 'e'})
    && (exists i :: 0 <= i < |s| && s[i] in {'.', 'e'})
  }

  const ONE_HALF := "0.5"

  type Decimal = s: string | IsDecimal(s) witness (assert ONE_HALF[1] == '.'; ONE_HALF)

  datatype Json =
    | Null
    | Bool(b: bool)
    | Num(n: int)
    | Dec(text: Decimal)
    | Str(s: string)
    | Arr(items: seq<Json>)
    | Obj(fields: map<string, Json>)

  datatype NormalizedAck = NormalizedAck(reason: string, coveredBy: Option<seq<string>>, extra: map<string, Json>)

  /** The white space that `String.prototype.trim` removes. */
  predicate IsTrimmed(c: char)
  {
    c in {' ', '\t', '\n', '\r', 0x0B as char, 0x0C as char, 0xA0 as char, 0xFEFF as char, 0x1680 as char,
          0x2028 as char, 0x2029 as char, 0x202F as char, 0x205F as char, 0x3000 as char}
    || 0x2000 as char <= c <= 0x200A as char
  }

  predicate IsBlank(s: string)
  {
    forall i :: 0 <= i < |s| ==> IsTrimmed(s[i])
  }

  function OnlyStrings(items: seq<Json>): seq<string>
  {
    if items == [] then []
    else (if items[0].Str? then [items[0].s] else []) + OnlyStrings(items[1..])
  }

  /** An acknowledgement the agent supplied, or None when its reason is missing or blank. */
  function NormalizeAck(raw: Json): (ack: Option<NormalizedAck>)
  {
    match raw
    case Str(s) => if IsBlank(s) then None else Some(NormalizedAck(s, None, map[]))
    case Obj(fields) =>
      if "reason" !in fields || !fields["reason"].Str? || IsBlank(fields["reason"].s) then None
      else
        var covered := if "covered_by" in fields && fields["covered_by"].Arr?
                       then Some(OnlyStrings(fields["covered_by"].items)) else None;
        Some(NormalizedAck(fields["reason"].s, covered, fields - {"reason", "covered_by"}))
    case _ => None
  }
}
