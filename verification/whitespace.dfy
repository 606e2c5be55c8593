/** Python's argument-less `str.split()` and ASCII `str.lower()`, the two
    string operations the bearer-header parser uses, and `str.strip()`,
    which the serializers' character fields apply to their input. */
module Whitespace {

  /** The characters `str.isspace` accepts, which `str.split()` treats as
      separators. */
  predicate IsSpace(c: char) {
    var n := c as int;
    || 9 <= n <= 13
    || 28 <= n <= 32
    || n == 0x85 || n == 0xA0 || n == 0x1680
    || 0x2000 <= n <= 0x200A
    || n == 0x2028 || n == 0x2029 || n == 0x202F || n == 0x205F || n == 0x3000
  }

  /** A run of whitespace, possibly empty. */
  predicate AllSpace(s: string) {
    forall i :: 0 <= i < |s| ==> IsSpace(s[i])
  }

  /** A field of `split()`'s result: non-empty and free of whitespace. */
  predicate IsWord(w: string) {
    |w| > 0 && forall i :: 0 <= i < |w| ==> !IsSpace(w[i])
  }

  /** Length of the leading run of non-space characters. */
  function WordLength(s: string): (n: nat)
    ensures n <= |s|
    ensures forall i :: 0 <= i < n ==> !IsSpace(s[i])
    ensures n < |s| ==> IsSpace(s[n])
  {
    if |s| == 0 || IsSpace(s[0]) then 0 else 1 + WordLength(s[1..])
  }

  /** `s.split()`: the maximal runs of non-space characters, in order;
      leading, trailing and repeated whitespace produce no empty fields. */
  function Split(s: string): (parts: seq<string>)
    ensures forall k :: 0 <= k < |parts| ==> IsWord(parts[k])
    ensures |parts| == 0 <==> AllSpace(s)
    ensures |s| > 0 && !IsSpace(s[0]) ==> |parts| > 0 && parts[0] == s[..WordLength(s)]
    decreases |s|
  {
    if |s| == 0 then []
    else if IsSpace(s[0]) then
      assert forall i :: 1 <= i < |s| ==> s[i] == s[1..][i - 1];
      Split(s[1..])
    else
      var n := WordLength(s);
      [s[..n]] + Split(s[n..])
  }

  /** Words separated by one space: the inverse of `Split` on words. */
  function Join(parts: seq<string>): string {
    if |parts| == 0 then ""
    else if |parts| == 1 then parts[0]
    else parts[0] + " " + Join(parts[1..])
  }

  lemma {:induction false} WordLengthOfWord(w: string, rest: string)
    requires IsWord(w)
    requires |rest| == 0 || IsSpace(rest[0])
    ensures WordLength(w + rest) == |w|
    decreases |w|
  {
    var s := w + rest;
    assert s[0] == w[0];
    if |w| == 1 {
      assert s[1..] == rest;
    } else {
      assert s[1..] == w[1..] + rest;
      WordLengthOfWord(w[1..], rest);
    }
  }

  /** Splitting words joined with single spaces gives the words back. */
  lemma {:induction false} SplitJoin(parts: seq<string>)
    requires forall k :: 0 <= k < |parts| ==> IsWord(parts[k])
    ensures Split(Join(parts)) == parts
    decreases |parts|
  {
    if |parts| == 1 {
      var w := parts[0];
      WordLengthOfWord(w, "");
      assert w + "" == w;
      assert w[|w|..] == "";
    } else if |parts| > 1 {
      var w := parts[0];
      var tail := " " + Join(parts[1..]);
      var s := w + tail;
      assert Join(parts) == s;
      WordLengthOfWord(w, tail);
      assert s[..|w|] == w;
      assert s[|w|..] == tail;
      assert tail[1..] == Join(parts[1..]);
      SplitJoin(parts[1..]);
      assert [w] + parts[1..] == parts;
    }
  }

  /** Leading whitespace never changes the fields. */
  lemma {:induction false} SplitSkipsLeadingSpace(pad: string, s: string)
    requires AllSpace(pad)
    ensures Split(pad + s) == Split(s)
    decreases |pad|
  {
    if |pad| == 0 {
      assert pad + s == s;
    } else {
      assert (pad + s)[0] == pad[0];
      assert (pad + s)[1..] == pad[1..] + s;
      SplitSkipsLeadingSpace(pad[1..], s);
    }
  }

  /** A word followed by whitespace and more text: the word is the first
      field and the text after the separator gives the rest, however long
      the separator and whichever whitespace characters it holds. */
  lemma SplitSeparated(w: string, sep: string, rest: string)
    requires IsWord(w)
    requires |sep| > 0 && AllSpace(sep)
    ensures Split(w + sep + rest) == [w] + Split(rest)
  {
    var tail := sep + rest;
    var s := w + tail;
    assert w + sep + rest == s;
    assert tail[0] == sep[0];
    WordLengthOfWord(w, tail);
    assert s[0] == w[0];
    assert s[..|w|] == w;
    assert s[|w|..] == tail;
    SplitSkipsLeadingSpace(sep, rest);
  }

  /** Trailing whitespace gives no empty field. */
  lemma SplitWordThenSpace(w: string, pad: string)
    requires IsWord(w) && AllSpace(pad)
    ensures Split(w + pad) == [w]
  {
    var s := w + pad;
    assert |pad| == 0 || IsSpace(pad[0]);
    WordLengthOfWord(w, pad);
    assert s[0] == w[0];
    assert s[..|w|] == w;
    assert s[|w|..] == pad;
  }

  /** Two words with whitespace between and after them. */
  lemma SplitPair(a: string, sep: string, b: string, trail: string)
    requires IsWord(a) && IsWord(b) && |sep| > 0 && AllSpace(sep) && AllSpace(trail)
    ensures Split(a + sep + (b + trail)) == [a, b]
  {
    SplitSeparated(a, sep, b + trail);
    SplitWordThenSpace(b, trail);
  }

  lemma Regroup(lead: string, a: string, sep: string, b: string, trail: string)
    ensures lead + a + sep + b + trail == lead + (a + sep + (b + trail))
  {
  }

  /** Two words with whitespace before, between and after them split into
      exactly those two words. */
  lemma SplitTwo(lead: string, a: string, sep: string, b: string, trail: string)
    requires AllSpace(lead) && AllSpace(trail) && |sep| > 0 && AllSpace(sep)
    requires IsWord(a) && IsWord(b)
    ensures Split(lead + a + sep + b + trail) == [a, b]
  {
    Regroup(lead, a, sep, b, trail);
    SplitPair(a, sep, b, trail);
    SplitSkipsLeadingSpace(lead, a + sep + (b + trail));
  }

  /** Number of whitespace characters at the start of `s`. */
  function LeadingSpace(s: string): (n: nat)
    ensures n <= |s|
    ensures AllSpace(s[..n])
    ensures n < |s| ==> !IsSpace(s[n])
  {
    if |s| == 0 || !IsSpace(s[0]) then 0
    else
      var n := 1 + LeadingSpace(s[1..]);
      assert forall i :: 1 <= i < n ==> s[..n][i] == s[1..][..n - 1][i - 1];
      n
  }

  /** Number of whitespace characters at the end of `s`. */
  function TrailingSpace(s: string): (n: nat)
    ensures n <= |s|
    ensures AllSpace(s[|s| - n..])
    ensures n < |s| ==> !IsSpace(s[|s| - n - 1])
  {
    if |s| == 0 || !IsSpace(s[|s| - 1]) then 0
    else
      var n := 1 + TrailingSpace(s[..|s| - 1]);
      n
  }

  /** `s.strip()`: `s` without its leading and trailing whitespace. */
  function Strip(s: string): (r: string)
    ensures |r| <= |s|
    ensures |r| > 0 ==> !IsSpace(r[0]) && !IsSpace(r[|r| - 1])
    ensures |r| == 0 <==> AllSpace(s)
  {
    var t := s[LeadingSpace(s)..];
    t[..|t| - TrailingSpace(t)]
  }

  /** Text that neither starts nor ends with whitespace. */
  predicate Trimmed(w: string) {
    |w| == 0 || (!IsSpace(w[0]) && !IsSpace(w[|w| - 1]))
  }

  lemma {:induction false} LeadingSpaceOf(pad: string, rest: string)
    requires AllSpace(pad)
    requires |rest| == 0 || !IsSpace(rest[0])
    ensures LeadingSpace(pad + rest) == |pad|
    decreases |pad|
  {
    if |pad| == 0 {
      assert pad + rest == rest;
    } else {
      assert (pad + rest)[0] == pad[0];
      assert (pad + rest)[1..] == pad[1..] + rest;
      LeadingSpaceOf(pad[1..], rest);
    }
  }

  lemma {:induction false} TrailingSpaceOf(rest: string, pad: string)
    requires AllSpace(pad)
    requires |rest| == 0 || !IsSpace(rest[|rest| - 1])
    ensures TrailingSpace(rest + pad) == |pad|
    decreases |pad|
  {
    var s := rest + pad;
    if |pad| == 0 {
      assert s == rest;
    } else {
      assert s[|s| - 1] == pad[|pad| - 1];
      assert s[..|s| - 1] == rest + pad[..|pad| - 1];
      TrailingSpaceOf(rest, pad[..|pad| - 1]);
    }
  }

  /** `strip()` removes exactly the surrounding whitespace: padding a
      trimmed text on either side with whitespace and stripping it gives
      the text back. */
  lemma StripPadded(lead: string, w: string, trail: string)
    requires AllSpace(lead) && AllSpace(trail) && Trimmed(w)
    ensures Strip(lead + w + trail) == w
  {
    var s := lead + w + trail;
    if |w| == 0 {
      assert s == lead + trail;
      assert forall i :: 0 <= i < |s| ==> IsSpace(s[i]) by {
        forall i | 0 <= i < |s| ensures IsSpace(s[i]) {
          if i < |lead| { assert s[i] == lead[i]; } else { assert s[i] == trail[i - |lead|]; }
        }
      }
    } else {
      assert s == lead + (w + trail);
      assert (w + trail)[0] == w[0];
      LeadingSpaceOf(lead, w + trail);
      var t := s[LeadingSpace(s)..];
      assert t == w + trail;
      TrailingSpaceOf(w, trail);
      assert t[..|t| - TrailingSpace(t)] == w;
    }
  }

  /** Stripping twice is stripping once. */
  lemma StripIdempotent(s: string)
    ensures Strip(Strip(s)) == Strip(s)
  {
    StripPadded("", Strip(s), "");
    assert "" + Strip(s) + "" == Strip(s);
  }

  function LowerChar(c: char): char {
    if 'A' <= c <= 'Z' then (c as int + 32) as char else c
  }

  /** `s.lower()` on ASCII letters; every other character is kept. */
  function Lower(s: string): string {
    seq(|s|, i requires 0 <= i < |s| => LowerChar(s[i]))
  }

  const Bearer := "bearer"
  const BearerUpper := "BEARER"

  /** `p.lower() == "bearer"` accepts exactly the six-letter spellings of
      "bearer" in any mix of upper and lower case. */
  lemma LowerIsBearerIff(p: string)
    ensures Lower(p) == Bearer <==>
              |p| == 6 && forall i :: 0 <= i < 6 ==> p[i] == Bearer[i] || p[i] == BearerUpper[i]
  {
  }
}
