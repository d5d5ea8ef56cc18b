/**
 The few pieces of JavaScript value semantics the service's core relies on:
 `undefined` cells of a short CSV row, truthiness of `||`, the string a
 value becomes when used as an object key, `String.prototype.indexOf` and
 `String.prototype.endsWith`.
 */
module JsSemantics {

  /** A CSV cell as JavaScript sees it: a string, or `undefined` when the
      row is shorter than the index read. */
  datatype JsValue = Undefined | Str(s: string)

  /** `v || fallback` takes `v` exactly when it is truthy; of the values
      above only the non-empty strings are. */
  predicate Truthy(v: JsValue) {
    v.Str? && v.s != ""
  }

  /** The property key a value names when used as `obj[v]`: a string is its
      own key and `undefined` becomes the string "undefined". */
  function PropertyKey(v: JsValue): string {
    match v
    case Str(s) => s
    case Undefined => "undefined"
  }

  /** `t` occurs in `s` starting at position `i`. */
  predicate OccursAt(s: string, t: string, i: int) {
    0 <= i && i + |t| <= |s| && s[i..i + |t|] == t
  }

  /** `t` is a substring of `s`. */
  ghost predicate Contains(s: string, t: string) {
    exists i :: OccursAt(s, t, i)
  }

  /** `s.indexOf(t, from)` for a start position within `s`: the first
      position at or after `from` where `t` occurs, or -1 when there is none. */
  function IndexOfFrom(s: string, t: string, from: nat): (r: int)
    requires from <= |s|
    ensures r == -1 || (from <= r && OccursAt(s, t, r))
    ensures r != -1 ==> forall j :: from <= j < r ==> !OccursAt(s, t, j)
    ensures r == -1 ==> forall j :: from <= j ==> !OccursAt(s, t, j)
    decreases |s| - from
  {
    if from + |t| > |s| then -1
    else if s[from..from + |t|] == t then from
    else
      assert t != [];
      IndexOfFrom(s, t, from + 1)
  }

  /** `s.indexOf(t)`. */
  function IndexOf(s: string, t: string): int {
    IndexOfFrom(s, t, 0)
  }

  /** `s.indexOf(t) > -1` is exactly "t is a substring of s". */
  lemma IndexOfFindsSubstring(s: string, t: string)
    ensures IndexOf(s, t) > -1 <==> Contains(s, t)
  {
    if IndexOf(s, t) > -1 {
      assert OccursAt(s, t, IndexOf(s, t));
    }
  }

  /** `s.endsWith(suffix)`. */
  predicate EndsWith(s: string, suffix: string) {
    |suffix| <= |s| && s[|s| - |suffix|..] == suffix
  }
}
