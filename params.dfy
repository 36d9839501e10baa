/** Parameter values and the ordered column/value arrays the builders take,
    and the bind-type string that `Db::query` hands to `bind_param`. */
module Params {

  /** A PHP value passed as a query parameter, as far as `query` tells them
      apart: `is_int`, `is_double`, `is_string`, and everything else (null,
      booleans, arrays, objects). A double is only a payload here; no
      floating-point arithmetic is involved. */
  datatype Value = Int(i: int) | Double(x: real) | Str(s: string) | Other

  /** A PHP associative array from column name to value, in insertion
      order. The model does not require distinct keys, which a PHP array
      always has; every property proved here holds without that. */
  type Assoc = seq<(string, Value)>

  /** PHP `array_keys`. */
  function Keys(m: Assoc): seq<string>
  {
    seq(|m|, i requires 0 <= i < |m| => m[i].0)
  }

  /** PHP `array_values`. */
  function Values(m: Assoc): seq<Value>
  {
    seq(|m|, i requires 0 <= i < |m| => m[i].1)
  }

  /** The `bind_param` type character of one value: `i` for an int, `d` for
      a double, `s` for a string and `b` for anything else. */
  function BindTag(v: Value): (t: char)
    ensures t in "idsb"
    ensures t == 'i' <==> v.Int?
    ensures t == 'd' <==> v.Double?
    ensures t == 's' <==> v.Str?
    ensures t == 'b' <==> v.Other?
  {
    if v.Int? then 'i'
    else if v.Double? then 'd'
    else if v.Str? then 's'
    else 'b'
  }

  /** The type string of a parameter list: one tag per parameter, in
      parameter order. */
  function TypeTags(params: seq<Value>): (r: string)
    ensures |r| == |params|
    ensures forall k | 0 <= k < |params| :: r[k] == BindTag(params[k])
  {
    if params == [] then ""
    else TypeTags(params[..|params| - 1]) + [BindTag(params[|params| - 1])]
  }

  /** The loop in `Db::query` that appends one tag character per parameter
      to `$type_str`. */
  method TypeString(params: seq<Value>) returns (typeStr: string)
    ensures typeStr == TypeTags(params)
  {
    typeStr := "";
    for k := 0 to |params|
      invariant typeStr == TypeTags(params[..k])
    {
      var value := params[k];
      if value.Int? {
        typeStr := typeStr + "i";
      } else if value.Double? {
        typeStr := typeStr + "d";
      } else if value.Str? {
        typeStr := typeStr + "s";
      } else {
        typeStr := typeStr + "b";
      }
      assert params[..k + 1][..k] == params[..k];
    }
    assert params[..|params|] == params;
  }
}
