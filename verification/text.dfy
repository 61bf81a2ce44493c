/** String operations the gateway relies on: prefix tests, JavaScript's
    `String.prototype.split` on a one-character separator, and the
    conversion between octets and the "binary strings" `atob` returns. */
module Text {
  import opened Common

  predicate StartsWith(s: string, prefix: string) {
    |prefix| <= |s| && s[..|prefix|] == prefix
  }

  /** The longest prefix of `s` that does not contain `sep`. */
  function TakeUntil(s: string, sep: char): (r: string)
    ensures |r| <= |s| && r == s[..|r|]
    ensures sep !in r
    ensures |r| < |s| ==> s[|r|] == sep
    decreases |s|
  {
    if |s| == 0 || s[0] == sep then "" else [s[0]] + TakeUntil(s[1..], sep)
  }

  /** `s.split(sep)` for a one-character separator: the maximal runs of
      non-separator characters, one more field than there are separators. */
  function Split(s: string, sep: char): (parts: seq<string>)
    ensures |parts| >= 1
    ensures forall i :: 0 <= i < |parts| ==> sep !in parts[i]
    decreases |s|
  {
    if |s| == 0 then [""]
    else
      var rest := Split(s[1..], sep);
      if s[0] == sep then [""] + rest
      else [[s[0]] + rest[0]] + rest[1..]
  }

  /** `parts.join(sep)`: the inverse of `Split`. */
  function Join(parts: seq<string>, sep: char): string
    requires |parts| >= 1
    decreases |parts|
  {
    if |parts| == 1 then parts[0] else parts[0] + [sep] + Join(parts[1..], sep)
  }

  /** Splitting loses nothing: joining the fields back gives the input. */
  lemma {:induction false} JoinSplit(s: string, sep: char)
    ensures Join(Split(s, sep), sep) == s
    decreases |s|
  {
    if |s| > 0 {
      JoinSplit(s[1..], sep);
      var rest := Split(s[1..], sep);
      if s[0] != sep && |rest| > 1 {
        assert rest == [rest[0]] + rest[1..];
        assert Join(rest, sep) == rest[0] + [sep] + Join(rest[1..], sep);
        assert [s[0]] + s[1..] == s;
      }
    }
  }

  /** A string without the separator is a single field. */
  lemma {:induction false} SplitWithoutSeparator(s: string, sep: char)
    requires sep !in s
    ensures Split(s, sep) == [s]
    decreases |s|
  {
    if |s| > 0 {
      SplitWithoutSeparator(s[1..], sep);
      assert [s[0]] + s[1..] == s;
    }
  }

  /** The first field ends at the first separator; the remaining fields are
      the fields of what follows it. */
  lemma {:induction false} SplitAtFirst(s: string, sep: char)
    requires sep in s
    ensures var u := TakeUntil(s, sep);
            |u| < |s| && Split(s, sep) == [u] + Split(s[|u| + 1..], sep)
    decreases |s|
  {
    if s[0] != sep {
      assert sep in s[1..] by {
        var i :| 0 <= i < |s| && s[i] == sep;
        assert s[1..][i - 1] == sep;
      }
      SplitAtFirst(s[1..], sep);
    }
  }

  /** A separator-free field followed by the separator ends the first field. */
  lemma {:induction false} TakeUntilPastField(p: string, sep: char, t: string)
    requires sep !in p
    ensures TakeUntil(p + [sep] + t, sep) == p
    decreases |p|
  {
    if |p| > 0 {
      TakeUntilPastField(p[1..], sep, t);
      assert (p + [sep] + t)[1..] == p[1..] + [sep] + t;
    }
  }

  /** Fields free of the separator are recovered by splitting their join. */
  lemma {:induction false} SplitJoin(parts: seq<string>, sep: char)
    requires |parts| >= 1
    requires forall i :: 0 <= i < |parts| ==> sep !in parts[i]
    ensures Split(Join(parts, sep), sep) == parts
    decreases |parts|
  {
    if |parts| == 1 {
      SplitWithoutSeparator(parts[0], sep);
    } else {
      var s := Join(parts, sep);
      var p := parts[0];
      assert s[|p|] == sep;
      assert sep in s;
      SplitAtFirst(s, sep);
      TakeUntilPastField(p, sep, Join(parts[1..], sep));
      assert s == p + [sep] + Join(parts[1..], sep);
      assert s[|p| + 1..] == Join(parts[1..], sep);
      SplitJoin(parts[1..], sep);
    }
  }

  /** The field between the first and second separator, computed from the
      separator positions alone; absent when `s` has no separator. */
  function SecondField(s: string, sep: char): (r: Option<string>)
    ensures r.None? <==> sep !in s
    ensures r.Some? ==> sep !in r.value
  {
    var u := TakeUntil(s, sep);
    if |u| == |s| then None else Some(TakeUntil(s[|u| + 1..], sep))
  }

  /** `const [_, f] = s.split(sep)` binds `f` to the field that `SecondField`
      describes, and leaves it undefined exactly when there is no separator. */
  lemma SplitSecondField(s: string, sep: char)
    ensures |Split(s, sep)| >= 2 <==> sep in s
    ensures sep in s ==> SecondField(s, sep) == Some(Split(s, sep)[1])
  {
    if sep in s {
      SplitAtFirst(s, sep);
      var t := s[|TakeUntil(s, sep)| + 1..];
      if sep in t {
        SplitAtFirst(t, sep);
      } else {
        SplitWithoutSeparator(t, sep);
        assert TakeUntil(t, sep) == t;
      }
    } else {
      SplitWithoutSeparator(s, sep);
    }
  }

  /** Every character is a Latin-1 code point, i.e. one octet. */
  predicate IsLatin1(s: string) {
    forall i :: 0 <= i < |s| ==> s[i] as int < 256
  }

  /** The octets of a Latin-1 string. */
  function Latin1Bytes(s: string): (b: seq<byte>)
    requires IsLatin1(s)
    ensures |b| == |s|
    ensures forall i :: 0 <= i < |s| ==> b[i] == s[i] as int
  {
    seq(|s|, i requires 0 <= i < |s| => s[i] as int)
  }

  /** The "binary string" `atob` returns: one character per octet. */
  function BinaryString(b: seq<byte>): (s: string)
    ensures |s| == |b| && IsLatin1(s)
    ensures forall i :: 0 <= i < |b| ==> s[i] as int == b[i]
  {
    seq(|b|, i requires 0 <= i < |b| => b[i] as char)
  }

  lemma BinaryStringLatin1(s: string)
    requires IsLatin1(s)
    ensures BinaryString(Latin1Bytes(s)) == s
  {
    var t := BinaryString(Latin1Bytes(s));
    assert forall i :: 0 <= i < |s| ==> t[i] as int == s[i] as int;
  }
}
