/** Strings as JavaScript sees them: optional values, `String.prototype.trim`,
    lower-casing, `includes`, and the `||` default for a string that may be null
    or empty. A `char` stands for one UTF-16 code unit. */
module Text {

  /** A value that may be `null` or `undefined` (both are None). */
  datatype Option<T> = None | Some(value: T)

  /** JavaScript's WhiteSpace and LineTerminator code points, the characters
      `trim` removes: tab, vertical tab, form feed, space, no-break space,
      byte order mark, the Unicode space separators and the four line terminators. */
  predicate IsWhitespace(c: char) {
    c == '\t' || c == '\n' || c == '\U{B}' || c == '\U{C}' || c == '\r' ||
    c == ' ' || c == '\U{A0}' || c == '\U{1680}' || ('\U{2000}' <= c <= '\U{200A}') ||
    c == '\U{2028}' || c == '\U{2029}' || c == '\U{202F}' || c == '\U{205F}' ||
    c == '\U{3000}' || c == '\U{FEFF}'
  }

  /** `s` without its leading whitespace. */
  function TrimStart(s: string): (r: string)
    ensures |r| <= |s| && r == s[|s| - |r|..]
    ensures forall k :: 0 <= k < |s| - |r| ==> IsWhitespace(s[k])
    ensures r == [] || !IsWhitespace(r[0])
  {
    if s != [] && IsWhitespace(s[0]) then TrimStart(s[1..]) else s
  }

  /** `s` without its trailing whitespace. */
  function TrimEnd(s: string): (r: string)
    ensures |r| <= |s| && r == s[..|r|]
    ensures forall k :: |r| <= k < |s| ==> IsWhitespace(s[k])
    ensures r == [] || !IsWhitespace(r[|r| - 1])
  {
    if s != [] && IsWhitespace(s[|s| - 1]) then TrimEnd(s[..|s| - 1]) else s
  }

  /** `s.trim()`: the infix of `s` that neither starts nor ends with whitespace,
      with only whitespace around it. */
  function Trim(s: string): (r: string)
    ensures r == [] || (!IsWhitespace(r[0]) && !IsWhitespace(r[|r| - 1]))
    ensures exists i :: 0 <= i && i + |r| <= |s| && SliceAt(s, r, i)
  {
    var t := TrimStart(s);
    var r := TrimEnd(t);
    assert SliceAt(s, r, |s| - |t|);
    r
  }

  /** True when `t` occurs in `s` starting at index `i`. */
  predicate SliceAt(s: string, t: string, i: nat) {
    i + |t| <= |s| && s[i..i + |t|] == t
  }

  /** A string is empty after trimming exactly when all its characters are whitespace. */
  lemma TrimEmptyIff(s: string)
    ensures Trim(s) == [] <==> forall k :: 0 <= k < |s| ==> IsWhitespace(s[k])
  {
    if Trim(s) == [] {
      assert TrimStart(s) == [];
    }
    if forall k :: 0 <= k < |s| ==> IsWhitespace(s[k]) {
      TrimStartAllWhitespace(s);
    }
  }

  /** Leading whitespace that runs to the end leaves nothing. */
  lemma {:induction false} TrimStartAllWhitespace(s: string)
    requires forall k :: 0 <= k < |s| ==> IsWhitespace(s[k])
    ensures TrimStart(s) == []
  {
    if s != [] {
      TrimStartAllWhitespace(s[1..]);
    }
  }

  /** Trimming a trimmed string changes nothing. */
  lemma TrimIdempotent(s: string)
    ensures Trim(Trim(s)) == Trim(s)
  {
    var r := Trim(s);
    assert TrimStart(r) == r;
    assert TrimEnd(r) == r;
  }

  /** `c.toLowerCase()` on the ASCII letters; every other character is kept. */
  function LowerChar(c: char): char {
    if 'A' <= c <= 'Z' then (c as int + 32) as char else c
  }

  /** `s.toLowerCase()`, character by character. */
  function Lower(s: string): (r: string)
    ensures |r| == |s|
    ensures forall k :: 0 <= k < |s| ==> r[k] == LowerChar(s[k])
  {
    if s == [] then [] else [LowerChar(s[0])] + Lower(s[1..])
  }

  /** `s.includes(t)`. */
  predicate Contains(s: string, t: string)
    decreases |s|
  {
    |t| <= |s| && (s[..|t|] == t || Contains(s[1..], t))
  }

  /** `includes` holds exactly when `t` occurs at some index of `s`; in particular
      every string includes the empty string. */
  lemma {:induction false} ContainsIff(s: string, t: string)
    ensures Contains(s, t) <==> exists i: nat :: SliceAt(s, t, i)
    ensures Contains(s, [])
  {
    if |t| <= |s| {
      if s[..|t|] == t {
        assert SliceAt(s, t, 0);
      } else {
        ContainsIff(s[1..], t);
        if Contains(s[1..], t) {
          var i: nat :| SliceAt(s[1..], t, i);
          assert s[1..][i..i + |t|] == s[i + 1..i + 1 + |t|];
          assert SliceAt(s, t, i + 1);
        }
        if i: nat :| SliceAt(s, t, i) {
          assert i != 0;
          assert s[1..][i - 1..i - 1 + |t|] == s[i..i + |t|];
          assert SliceAt(s[1..], t, i - 1);
        }
      }
    }
    assert s[..0] == [];
  }

  /** `value || fallback` for a string that may be null or undefined (None) or
      empty (falsy). */
  function OrElse(value: Option<string>, fallback: string): (r: string)
    ensures value.Some? && value.value != [] ==> r == value.value
    ensures value.None? || value.value == [] ==> r == fallback
  {
    if value.Some? && value.value != [] then value.value else fallback
  }
}
