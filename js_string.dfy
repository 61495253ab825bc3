/** The few pieces of JavaScript's String API that the request handlers use:
    `trim`, `split(' ')`, and searching for a character. */
module JsString {

  /** The whitespace that `String.prototype.trim` strips, restricted to ASCII:
      space, tab, line feed, vertical tab, form feed, carriage return. */
  predicate IsJsSpace(c: char) {
    c == ' ' || c == '\t' || c == '\n' || c == '\U{000B}' || c == '\U{000C}' || c == '\r'
  }

  predicate HasPrefix(s: string, prefix: string) {
    |prefix| <= |s| && s[..|prefix|] == prefix
  }

  /** Strips leading whitespace: the result is the suffix of `s` that starts at
      its first non-space character. */
  function TrimStart(s: string): (r: string)
    ensures |r| <= |s| && r == s[|s| - |r|..]
    ensures r == [] || !IsJsSpace(r[0])
    ensures forall i :: 0 <= i < |s| - |r| ==> IsJsSpace(s[i])
  {
    if s != [] && IsJsSpace(s[0]) then TrimStart(s[1..]) else s
  }

  /** Strips trailing whitespace: the result is the prefix of `s` that ends at
      its last non-space character. */
  function TrimEnd(s: string): (r: string)
    ensures |r| <= |s| && r == s[..|r|]
    ensures r == [] || !IsJsSpace(r[|r| - 1])
    ensures forall i :: |r| <= i < |s| ==> IsJsSpace(s[i])
  {
    if s != [] && IsJsSpace(s[|s| - 1]) then TrimEnd(s[..|s| - 1]) else s
  }

  /** `s.trim()`: what lies between the leading and the trailing whitespace of
      `s`, starting and ending with a non-space character. */
  function Trim(s: string): (r: string)
    ensures var i := |s| - |TrimStart(s)|;
            i + |r| <= |s| && r == s[i..][..|r|] &&
            (forall k :: 0 <= k < i ==> IsJsSpace(s[k])) &&
            (forall k :: i + |r| <= k < |s| ==> IsJsSpace(s[k]))
    ensures r == [] || (!IsJsSpace(r[0]) && !IsJsSpace(r[|r| - 1]))
  {
    var t := TrimStart(s);
    var r := TrimEnd(t);
    assert forall k :: |s| - |t| + |r| <= k < |s| ==> IsJsSpace(s[k]) by {
      forall k | |s| - |t| + |r| <= k < |s| ensures IsJsSpace(s[k]) {
        assert s[k] == t[k - (|s| - |t|)];
      }
    }
    r
  }

  /** `s.trim() == ""`: every character of `s` is whitespace. */
  predicate IsBlank(s: string): (b: bool)
    ensures b <==> forall i :: 0 <= i < |s| ==> IsJsSpace(s[i])
  {
    Trim(s) == ""
  }

  /** Some character of `s` is not whitespace. */
  ghost predicate HasVisibleChar(s: string) {
    exists i :: 0 <= i < |s| && !IsJsSpace(s[i])
  }

  /** `s.split(sep)` for a one-character separator: the fields between
      separators, with empty fields kept, so that `"".split(' ')` is `[""]`. */
  function Split(s: string, sep: char): (r: seq<string>)
    ensures |r| >= 1
    ensures forall i :: 0 <= i < |r| ==> sep !in r[i]
    ensures |r| == 1 <==> sep !in s
    ensures Join(r, sep) == s
  {
    if s == [] then [[]]
    else if s[0] == sep then
      var rest := Split(s[1..], sep);
      assert s == [sep] + s[1..];
      [[]] + rest
    else
      var rest := Split(s[1..], sep);
      var r := [[s[0]] + rest[0]] + rest[1..];
      assert Join(r, sep) == [s[0]] + Join(rest, sep);
      assert s == [s[0]] + s[1..];
      r
  }

  /** Glues fields back together with the separator between consecutive ones
      (`fields.join(sep)`). */
  function Join(fields: seq<string>, sep: char): string
    decreases |fields|
  {
    if |fields| == 0 then []
    else if |fields| == 1 then fields[0]
    else fields[0] + [sep] + Join(fields[1..], sep)
  }

  /** Splitting undoes joining: fields without separators come back unchanged,
      so Split and Join are inverse to each other. */
  lemma {:induction false} SplitJoin(fields: seq<string>, sep: char)
    requires |fields| >= 1
    requires forall i :: 0 <= i < |fields| ==> sep !in fields[i]
    ensures Split(Join(fields, sep), sep) == fields
    decreases |fields|
  {
    if |fields| == 1 {
      SplitWithoutSeparator(fields[0], sep);
    } else {
      SplitJoin(fields[1..], sep);
      SplitFieldThenSeparator(fields[0], sep, Join(fields[1..], sep));
    }
  }

  /** A string without the separator splits into itself alone. */
  lemma {:induction false} SplitWithoutSeparator(f: string, sep: char)
    requires sep !in f
    ensures Split(f, sep) == [f]
    decreases |f|
  {
    if f != [] {
      SplitWithoutSeparator(f[1..], sep);
    }
  }

  /** A separator-free field followed by the separator is the first field. */
  lemma {:induction false} SplitFieldThenSeparator(f: string, sep: char, rest: string)
    requires sep !in f
    ensures Split(f + [sep] + rest, sep) == [f] + Split(rest, sep)
    decreases |f|
  {
    var whole := f + [sep] + rest;
    if f == [] {
      assert whole == [sep] + rest;
      assert whole[1..] == rest;
    } else {
      assert whole[0] == f[0] && whole[1..] == f[1..] + [sep] + rest;
      SplitFieldThenSeparator(f[1..], sep, rest);
      SplitStep(whole, sep);
      assert [f[0]] + f[1..] == f;
    }
  }

  /** A leading character other than the separator joins the first field of
      the rest. */
  lemma SplitStep(s: string, sep: char)
    requires s != [] && s[0] != sep
    ensures Split(s, sep) == [[s[0]] + Split(s[1..], sep)[0]] + Split(s[1..], sep)[1..]
  {
  }

  /** Index of the first occurrence of `c` in `s`, or `|s|` when there is none. */
  function IndexOf(s: string, c: char): (r: nat)
    ensures r <= |s|
    ensures r < |s| ==> s[r] == c
    ensures forall i :: 0 <= i < r ==> s[i] != c
  {
    if s == [] || s[0] == c then 0 else 1 + IndexOf(s[1..], c)
  }

  /** Index of the last occurrence of `c` in `s`, or -1 when there is none. */
  function LastIndexOf(s: string, c: char): (r: int)
    ensures -1 <= r < |s|
    ensures r >= 0 ==> s[r] == c
    ensures forall i :: r < i < |s| ==> s[i] != c
  {
    if s == [] then -1
    else if s[|s| - 1] == c then |s| - 1
    else LastIndexOf(s[..|s| - 1], c)
  }

  /** The first field of a split is everything before the first separator, and
      the remaining fields are the split of what follows it. */
  lemma SplitAtFirst(s: string, sep: char)
    ensures Split(s, sep)[0] == s[..IndexOf(s, sep)]
    ensures IndexOf(s, sep) < |s| ==> Split(s, sep)[1..] == Split(s[IndexOf(s, sep) + 1..], sep)
  {
    SplitFirstField(s, sep);
    if IndexOf(s, sep) < |s| {
      SplitOtherFields(s, sep);
    }
  }

  lemma {:induction false} SplitFirstField(s: string, sep: char)
    ensures Split(s, sep)[0] == s[..IndexOf(s, sep)]
    decreases |s|
  {
    if s != [] && s[0] != sep {
      var t := s[1..];
      SplitFirstField(t, sep);
      SplitStep(s, sep);
      assert s[..IndexOf(s, sep)] == [s[0]] + t[..IndexOf(t, sep)];
    }
  }

  lemma {:induction false} SplitOtherFields(s: string, sep: char)
    requires IndexOf(s, sep) < |s|
    ensures Split(s, sep)[1..] == Split(s[IndexOf(s, sep) + 1..], sep)
    decreases |s|
  {
    if s[0] != sep {
      var t := s[1..];
      SplitOtherFields(t, sep);
      SplitStep(s, sep);
      assert s[IndexOf(s, sep) + 1..] == t[IndexOf(t, sep) + 1..];
    }
  }
}
