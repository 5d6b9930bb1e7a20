/** The small part of JavaScript's value model that the story client relies on:
    primitive values, plain records, truthiness, ASCII case folding, the
    order of `<` on strings, `includes` and `trim`. */
module JsModel {

  datatype Option<T> = None | Some(value: T)

  datatype Result<T, E> = Ok(value: T) | Err(error: E)

  /** A JavaScript primitive. Numbers are modelled as integers. */
  datatype Value = Undefined | Null | Bool(b: bool) | Num(n: int) | Str(s: string)

  /** A plain object: property name to value. A missing property reads as `undefined`. */
  type Record = map<string, Value>

  /** Property read `r.name`. */
  function Get(r: Record, name: string): Value
  {
    if name in r then r[name] else Undefined
  }

  /** ToBoolean: what `if (v)`, `v || d` and `!v` test. */
  predicate Truthy(v: Value)
  {
    match v
    case Undefined => false
    case Null => false
    case Bool(b) => b
    case Num(n) => n != 0
    case Str(s) => s != ""
  }

  /** `v ?? d`: the default replaces only `null` and `undefined`. */
  function Coalesce(v: Value, d: Value): (r: Value)
    ensures !(v.Null? || v.Undefined?) ==> r == v
    ensures v.Null? || v.Undefined? ==> r == d
  {
    if v.Null? || v.Undefined? then d else v
  }

  /** `v || d`: the default replaces every falsy value. */
  function Or(v: Value, d: Value): (r: Value)
    ensures Truthy(v) ==> r == v
    ensures !Truthy(v) ==> r == d
  {
    if Truthy(v) then v else d
  }

  /** `??` and `||` differ exactly on the falsy values that are not nullish
      (`0`, `''`, `false`): `??` keeps them, `||` replaces them. */
  lemma CoalesceVersusOr(v: Value, d: Value)
    ensures Coalesce(v, d) != Or(v, d) ==> !Truthy(v) && !v.Null? && !v.Undefined?
    ensures !Truthy(v) && !v.Null? && !v.Undefined? ==> Coalesce(v, d) == v && Or(v, d) == d
  {
  }

  /** `localStorage.getItem(key)`: the stored string, or `null` when there is none. */
  function StorageItem(stored: Option<string>): (v: Value)
    ensures v.Null? <==> stored.None?
    ensures stored.Some? ==> v == Str(stored.value)
  {
    if stored.Some? then Str(stored.value) else Null
  }

  // ---------------------------------------------------------------------------
  // Case folding (`toLowerCase`, restricted to ASCII letters)

  function LowerChar(c: char): char
  {
    if 'A' <= c <= 'Z' then (c as int + 32) as char else c
  }

  function Lower(s: string): (r: string)
    ensures |r| == |s|
  {
    seq(|s|, i requires 0 <= i < |s| => LowerChar(s[i]))
  }

  /** Lower-casing leaves no upper-case ASCII letter and is idempotent. */
  lemma LowerIdempotent(s: string)
    ensures forall i :: 0 <= i < |s| ==> !('A' <= Lower(s)[i] <= 'Z')
    ensures Lower(Lower(s)) == Lower(s)
  {
  }

  // ---------------------------------------------------------------------------
  // `a < b` on strings: lexicographic, a proper prefix comes first. A Dafny
  // `char` is a Unicode scalar value, so characters compare by code point;
  // JavaScript compares UTF-16 code units, which agrees except where a
  // character outside the Basic Multilingual Plane meets one from U+E000 up.

  predicate StrLess(a: string, b: string)
    decreases |a|
  {
    if a == [] then b != []
    else b != [] && (a[0] < b[0] || (a[0] == b[0] && StrLess(a[1..], b[1..])))
  }

  lemma {:induction false} StrLessIrreflexive(a: string)
    ensures !StrLess(a, a)
    decreases |a|
  {
    if a != [] {
      StrLessIrreflexive(a[1..]);
    }
  }

  lemma {:induction false} StrLessTransitive(a: string, b: string, c: string)
    requires StrLess(a, b) && StrLess(b, c)
    ensures StrLess(a, c)
    decreases |a|
  {
    if a != [] && a[0] == b[0] && b[0] == c[0] {
      StrLessTransitive(a[1..], b[1..], c[1..]);
    }
  }

  lemma {:induction false} StrLessTotal(a: string, b: string)
    requires a != b
    ensures StrLess(a, b) || StrLess(b, a)
    decreases |a|
  {
    if a != [] && b != [] && a[0] == b[0] {
      assert a == [a[0]] + a[1..] && b == [b[0]] + b[1..];
      StrLessTotal(a[1..], b[1..]);
    }
  }

  lemma StrLessAsymmetric(a: string, b: string)
    requires StrLess(a, b)
    ensures !StrLess(b, a)
  {
    if StrLess(b, a) {
      StrLessTransitive(a, b, a);
      StrLessIrreflexive(a);
    }
  }

  // ---------------------------------------------------------------------------
  // `s.includes(t)`

  predicate Includes(s: string, t: string)
  {
    exists i | 0 <= i <= |s| :: t <= s[i..]
  }

  // ---------------------------------------------------------------------------
  // `s.trim()`: the WhiteSpace and LineTerminator code points of ECMAScript

  predicate IsJsSpace(c: char)
  {
    c == '\t' || c == '\n' || c == '\U{000B}' || c == '\U{000C}' || c == '\r' || c == ' '
    || c == '\U{00A0}' || c == '\U{1680}' || ('\U{2000}' <= c <= '\U{200A}')
    || c == '\U{2028}' || c == '\U{2029}' || c == '\U{202F}' || c == '\U{205F}'
    || c == '\U{3000}' || c == '\U{FEFF}'
  }

  function TrimStart(s: string): (r: string)
    decreases |s|
  {
    if s != [] && IsJsSpace(s[0]) then TrimStart(s[1..]) else s
  }

  function TrimEnd(s: string): (r: string)
    decreases |s|
  {
    if s != [] && IsJsSpace(s[|s| - 1]) then TrimEnd(s[..|s| - 1]) else s
  }

  function Trim(s: string): string
  {
    TrimEnd(TrimStart(s))
  }

  predicate Blank(s: string)
  {
    forall i :: 0 <= i < |s| ==> IsJsSpace(s[i])
  }

  lemma {:induction false} TrimStartBlank(s: string)
    ensures TrimStart(s) == [] <==> Blank(s)
    decreases |s|
  {
    if s != [] && IsJsSpace(s[0]) {
      TrimStartBlank(s[1..]);
      if Blank(s[1..]) {
        forall i | 0 <= i < |s| ensures IsJsSpace(s[i]) {
          if i > 0 { assert s[i] == s[1..][i - 1]; }
        }
      } else {
        var j :| 0 <= j < |s[1..]| && !IsJsSpace(s[1..][j]);
        assert s[j + 1] == s[1..][j];
      }
    }
  }

  lemma {:induction false} TrimEndEmpty(s: string)
    ensures TrimEnd(s) == [] <==> s == [] || Blank(s)
    decreases |s|
  {
    if s != [] && IsJsSpace(s[|s| - 1]) {
      var p := s[..|s| - 1];
      TrimEndEmpty(p);
      if Blank(p) {
        forall i | 0 <= i < |s| ensures IsJsSpace(s[i]) {
          if i < |s| - 1 { assert s[i] == p[i]; }
        }
      } else if p != [] {
        var j :| 0 <= j < |p| && !IsJsSpace(p[j]);
        assert s[j] == p[j];
      }
    }
  }

  /** `!s.trim()` holds exactly when every character of `s` is white space. */
  lemma TrimEmptyIffBlank(s: string)
    ensures Trim(s) == [] <==> Blank(s)
  {
    TrimStartBlank(s);
    TrimEndEmpty(TrimStart(s));
    if Trim(s) == [] && TrimStart(s) != [] {
      assert Blank(TrimStart(s));
      TrimStartKeepsNonSpace(s);
    }
  }

  lemma {:induction false} TrimStartKeepsNonSpace(s: string)
    requires TrimStart(s) != []
    ensures !IsJsSpace(TrimStart(s)[0])
    decreases |s|
  {
    if s != [] && IsJsSpace(s[0]) {
      TrimStartKeepsNonSpace(s[1..]);
    }
  }
}
