/** The header list of a Fetch `Headers` object as index.ts uses it: names
    compared without regard to ASCII case, `get` returning the value or
    `null`, and `set` normalizing the value and throwing a TypeError on a
    value the Fetch Standard does not allow. The map is keyed by lower-case
    names; a name seen several times holds its values already combined. */
module Headers {
  import opened Common

  function LowerChar(c: char): char {
    if 'A' <= c <= 'Z' then (c as int + 32) as char else c
  }

  /** The byte-lowercase of a header name. */
  function Lower(s: string): (r: string)
    ensures |r| == |s|
  {
    seq(|s|, i requires 0 <= i < |s| => LowerChar(s[i]))
  }

  /** HTTP whitespace: TAB, LF, CR and SPACE. */
  predicate IsHttpWhitespace(c: char) {
    c == '\t' || c == '\n' || c == '\r' || c == ' '
  }

  predicate AllHttpWhitespace(s: string) {
    forall i :: 0 <= i < |s| ==> IsHttpWhitespace(s[i])
  }

  /** Neither starts nor ends with HTTP whitespace. */
  predicate IsNormalized(v: string) {
    v == [] || (!IsHttpWhitespace(v[0]) && !IsHttpWhitespace(v[|v| - 1]))
  }

  /** `v` with its leading HTTP whitespace removed. */
  function TrimStart(v: string): (r: string)
    ensures |r| <= |v| && r == v[|v| - |r|..]
    ensures AllHttpWhitespace(v[..|v| - |r|])
    ensures r == [] || !IsHttpWhitespace(r[0])
    decreases |v|
  {
    if |v| > 0 && IsHttpWhitespace(v[0]) then
      var r := TrimStart(v[1..]);
      assert v[..|v| - |r|] == [v[0]] + v[1..][..|v| - 1 - |r|];
      r
    else v
  }

  /** `v` with its trailing HTTP whitespace removed. */
  function TrimEnd(v: string): (r: string)
    ensures |r| <= |v| && r == v[..|r|]
    ensures AllHttpWhitespace(v[|r|..])
    ensures r == [] || !IsHttpWhitespace(r[|r| - 1])
    decreases |v|
  {
    if |v| > 0 && IsHttpWhitespace(v[|v| - 1]) then
      var r := TrimEnd(v[..|v| - 1]);
      assert v[|r|..] == v[..|v| - 1][|r|..] + [v[|v| - 1]];
      r
    else v
  }

  /** The normalization `set` applies to a value. */
  function Normalize(v: string): (r: string)
    ensures IsNormalized(r)
  {
    TrimEnd(TrimStart(v))
  }

  /** Normalizing removes the surrounding HTTP whitespace and nothing else. */
  lemma NormalizeTrims(v: string)
    ensures var r := Normalize(v);
            exists i, j :: 0 <= i <= j <= |v| && r == v[i..j]
              && AllHttpWhitespace(v[..i]) && AllHttpWhitespace(v[j..])
  {
    var t := TrimStart(v);
    var r := TrimEnd(t);
    var i := |v| - |t|;
    assert r == v[i..i + |r|];
    assert v[i + |r|..] == t[|r|..];
  }

  /** A value that is already normalized is left alone. */
  lemma NormalizeFixesNormalized(v: string)
    requires IsNormalized(v)
    ensures Normalize(v) == v
  {
  }

  /** A character a header value may not hold: NUL, CR, LF, or anything
      beyond one octet (the value is converted to a ByteString first). */
  predicate IsForbiddenValueChar(c: char) {
    c == '\0' || c == '\r' || c == '\n' || c as int > 255
  }

  predicate HasForbiddenChar(v: string) {
    exists i :: 0 <= i < |v| && IsForbiddenValueChar(v[i])
  }

  /** A joined value holds a forbidden character exactly when a part does. */
  lemma ForbiddenInConcat(a: string, b: string)
    ensures HasForbiddenChar(a + b) <==> HasForbiddenChar(a) || HasForbiddenChar(b)
  {
    var v := a + b;
    if HasForbiddenChar(a) {
      var i :| 0 <= i < |a| && IsForbiddenValueChar(a[i]);
      assert v[i] == a[i];
    }
    if HasForbiddenChar(b) {
      var i :| 0 <= i < |b| && IsForbiddenValueChar(b[i]);
      assert v[|a| + i] == b[i];
    }
    if HasForbiddenChar(v) {
      var i :| 0 <= i < |v| && IsForbiddenValueChar(v[i]);
      if i < |a| {
        assert v[i] == a[i];
      } else {
        assert v[i] == b[i - |a|];
      }
    }
  }

  /** A value as a `Headers` object stores it. */
  predicate IsValidValue(v: string) {
    IsNormalized(v) && !HasForbiddenChar(v)
  }

  type HeaderMap = map<string, string>

  /** The shape of every `Headers` object: lower-case names, valid values. */
  predicate WellFormed(h: HeaderMap) {
    forall k :: k in h ==> Lower(k) == k && IsValidValue(h[k])
  }

  /** `headers.get(name)`. */
  function Get(h: HeaderMap, name: string): (r: Option<string>)
    ensures WellFormed(h) && r.Some? ==> IsValidValue(r.value)
  {
    if Lower(name) in h then Some(h[Lower(name)]) else None
  }

  /** `get` does not care how the name is spelt: any spelling reads the
      same entry as the lower-case one. */
  lemma GetIgnoresCase(h: HeaderMap, name: string)
    ensures Get(h, name) == Get(h, Lower(name))
  {
    LowerIsIdempotent(name);
  }

  /** `headers.set(name, value)`: replaces every value under `name`, or
      throws without changing anything. */
  function Set(h: HeaderMap, name: string, value: string): (r: Result<HeaderMap, Fault>)
    ensures r.Success? <==> !HasForbiddenChar(Normalize(value))
    ensures r.Failure? ==> r.error == InvalidHeaderValue
  {
    var v := Normalize(value);
    if HasForbiddenChar(v) then Failure(InvalidHeaderValue) else Success(h[Lower(name) := v])
  }

  /** After a successful `set`, `get` of the same name (in any case) returns
      the normalized value, one name at most is added, and every other
      header is untouched; a well-formed list stays well-formed. */
  lemma SetThenGet(h: HeaderMap, name: string, value: string)
    requires Set(h, name, value).Success?
    ensures var h' := Set(h, name, value).value;
            && Get(h', name) == Some(Normalize(value))
            && h'.Keys == h.Keys + {Lower(name)}
            && (forall k :: k in h && k != Lower(name) ==> h'[k] == h[k])
            && (WellFormed(h) ==> WellFormed(h'))
  {
    LowerIsIdempotent(name);
  }

  /** Lowers a name one character at a time. */
  lemma LowerByChars(s: string, t: string)
    requires |s| == |t| && forall i :: 0 <= i < |s| ==> LowerChar(s[i]) == t[i]
    ensures Lower(s) == t
  {
  }

  lemma LowerIsIdempotent(s: string)
    ensures Lower(Lower(s)) == Lower(s)
  {
  }
}
