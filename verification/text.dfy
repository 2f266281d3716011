/** The string operations of Go's standard library that the program parses with. */
module Text {
  import opened Wrappers

  /** `unicode.IsSpace`. */
  predicate IsSpace(c: char) {
    || c in " \t\n\r\U{000B}\U{000C}\U{0085}\U{00A0}\U{1680}\U{2028}\U{2029}\U{202F}\U{205F}\U{3000}"
    || '\U{2000}' <= c <= '\U{200A}'
  }

  predicate Blank(s: string) {
    forall i :: 0 <= i < |s| ==> IsSpace(s[i])
  }

  function TrimLeft(s: string): string {
    if s != "" && IsSpace(s[0]) then TrimLeft(s[1..]) else s
  }

  function TrimRight(s: string): string {
    if s != "" && IsSpace(s[|s| - 1]) then TrimRight(s[..|s| - 1]) else s
  }

  /** `strings.TrimSpace`. */
  function Trim(s: string): string {
    TrimRight(TrimLeft(s))
  }

  predicate Trimmed(s: string) {
    s == "" || (!IsSpace(s[0]) && !IsSpace(s[|s| - 1]))
  }

  predicate HasPrefix(s: string, prefix: string) {
    |prefix| <= |s| && s[..|prefix|] == prefix
  }

  predicate HasSuffix(s: string, suffix: string) {
    |suffix| <= |s| && s[|s| - |suffix|..] == suffix
  }

  /** The part of `s` before the first character of `stops`; all of `s` when there is none. */
  function Before(s: string, stops: string): (r: string)
    ensures |r| <= |s|
  {
    if s == "" || s[0] in stops then "" else [s[0]] + Before(s[1..], stops)
  }

  /** The part of `s` after the last `stop`; all of `s` when there is none. */
  function AfterLast(s: string, stop: char): (r: string)
    ensures |r| <= |s|
  {
    if s == "" || s[|s| - 1] == stop then ""
    else AfterLast(s[..|s| - 1], stop) + [s[|s| - 1]]
  }

  /** `strings.Cut` at a single character. */
  function Cut(s: string, sep: char): Option<(string, string)> {
    var before := Before(s, [sep]);
    if |before| == |s| then None else Some((before, s[|before| + 1..]))
  }

  lemma {:induction false} BeforeShape(s: string, stops: string)
    ensures var r := Before(s, stops);
            && s[..|r|] == r
            && (forall i :: 0 <= i < |r| ==> r[i] !in stops)
            && (|r| < |s| ==> s[|r|] in stops)
  {
    if s != "" && s[0] !in stops {
      BeforeShape(s[1..], stops);
      assert s == [s[0]] + s[1..];
    }
  }

  lemma {:induction false} BeforeIsUnique(a: string, sep: char, rest: string, stops: string)
    requires sep in stops && forall i :: 0 <= i < |a| ==> a[i] !in stops
    ensures Before(a + [sep] + rest, stops) == a
  {
    if a != "" {
      assert (a + [sep] + rest)[1..] == a[1..] + [sep] + rest;
      BeforeIsUnique(a[1..], sep, rest, stops);
    }
  }

  lemma {:induction false} BeforeWithoutStop(a: string, stops: string)
    requires forall i :: 0 <= i < |a| ==> a[i] !in stops
    ensures Before(a, stops) == a
  {
    if a != "" {
      BeforeWithoutStop(a[1..], stops);
    }
  }

  lemma {:induction false} AfterLastIsUnique(a: string, stop: char, b: string)
    requires stop !in b
    ensures AfterLast(a + [stop] + b, stop) == b
  {
    if b != "" {
      var n := |b| - 1;
      assert (a + [stop] + b)[..|a| + 1 + n] == a + [stop] + b[..n];
      AfterLastIsUnique(a, stop, b[..n]);
    }
  }

  lemma {:induction false} AfterLastWithoutStop(s: string, stop: char)
    ensures stop !in s <==> AfterLast(s, stop) == s
  {
    if s != "" {
      var n := |s| - 1;
      AfterLastWithoutStop(s[..n], stop);
      assert s == s[..n] + [s[n]];
    }
  }

  lemma {:induction false} TrimLeftPadded(pad: string, s: string)
    requires Blank(pad)
    ensures TrimLeft(pad + s) == TrimLeft(s)
  {
    if pad == "" {
      assert pad + s == s;
    } else {
      assert (pad + s)[1..] == pad[1..] + s;
      TrimLeftPadded(pad[1..], s);
    }
  }

  lemma {:induction false} TrimRightPadded(s: string, pad: string)
    requires Blank(pad)
    ensures TrimRight(s + pad) == TrimRight(s)
  {
    if pad == "" {
      assert s + pad == s;
    } else {
      var n := |pad| - 1;
      assert (s + pad)[..|s + pad| - 1] == s + pad[..n];
      assert (s + pad)[|s + pad| - 1] == pad[n];
      TrimRightPadded(s, pad[..n]);
    }
  }

  lemma {:induction false} TrimLeftOfBlank(s: string)
    requires Blank(s)
    ensures TrimLeft(s) == ""
  {
    if s != "" {
      TrimLeftOfBlank(s[1..]);
    }
  }

  lemma {:induction false} TrimLeftSplits(s: string, pad: string)
    requires !Blank(s) && Blank(pad)
    ensures TrimLeft(s + pad) == TrimLeft(s) + pad
  {
    if IsSpace(s[0]) {
      assert (s + pad)[1..] == s[1..] + pad;
      TrimLeftSplits(s[1..], pad);
    }
  }

  /** Surrounding whitespace never changes what `TrimSpace` returns. */
  lemma {:induction false} TrimPadded(left: string, s: string, right: string)
    requires Blank(left) && Blank(right)
    ensures Trim(left + s + right) == Trim(s)
  {
    assert left + s + right == left + (s + right);
    TrimLeftPadded(left, s + right);
    if Blank(s) {
      TrimLeftOfBlank(s + right);
      TrimLeftOfBlank(s);
    } else {
      TrimLeftSplits(s, right);
      TrimRightPadded(TrimLeft(s), right);
    }
  }

  lemma {:induction false} TrimOfTrimmed(s: string)
    requires Trimmed(s)
    ensures Trim(s) == s
  {
  }

  /** A whitespace-only string trims to the empty one. */
  lemma {:induction false} TrimOfBlank(s: string)
    requires Blank(s)
    ensures Trim(s) == ""
  {
    TrimLeftOfBlank(s);
  }

  /** Whitespace is these code points: the six of ASCII, NEL, the no-break space and the wide ones. */
  lemma {:induction false} WhitespaceByCodePoint(c: char)
    ensures IsSpace(c) <==>
      || c as int in {9, 10, 11, 12, 13, 32, 0x85, 0xA0, 0x1680, 0x2028, 0x2029, 0x202F, 0x205F, 0x3000}
      || 0x2000 <= c as int <= 0x200A
  {
  }

  lemma {:induction false} TrimLeftDropsBlank(s: string) returns (left: string)
    ensures Blank(left) && s == left + TrimLeft(s)
    ensures TrimLeft(s) != "" ==> !IsSpace(TrimLeft(s)[0])
  {
    hide IsSpace;
    if s != "" && IsSpace(s[0]) {
      var rest := TrimLeftDropsBlank(s[1..]);
      left := [s[0]] + rest;
      assert s == [s[0]] + s[1..];
    } else {
      left := "";
    }
  }

  lemma {:induction false} TrimRightDropsBlank(s: string) returns (right: string)
    ensures Blank(right) && s == TrimRight(s) + right
    ensures TrimRight(s) != "" ==> !IsSpace(TrimRight(s)[|TrimRight(s)| - 1]) && TrimRight(s)[0] == s[0]
  {
    hide IsSpace;
    if s != "" && IsSpace(s[|s| - 1]) {
      var n := |s| - 1;
      var rest := TrimRightDropsBlank(s[..n]);
      right := rest + [s[n]];
      assert s == s[..n] + [s[n]];
    } else {
      right := "";
    }
  }

  /** `TrimSpace` leaves what is between the whitespace at the two ends. */
  lemma {:induction false} TrimIsMiddle(s: string) returns (left: string, right: string)
    ensures Blank(left) && Blank(right) && s == left + Trim(s) + right && Trimmed(Trim(s))
  {
    left := TrimLeftDropsBlank(s);
    right := TrimRightDropsBlank(TrimLeft(s));
    assert s == left + (Trim(s) + right);
  }

  /** Whatever stands between whitespace and has none at its own ends is what `TrimSpace` leaves. */
  lemma {:induction false} TrimOfMiddle(left: string, s: string, right: string)
    requires Blank(left) && Blank(right) && Trimmed(s)
    ensures Trim(left + s + right) == s
  {
    TrimPadded(left, s, right);
    TrimOfTrimmed(s);
  }
}
