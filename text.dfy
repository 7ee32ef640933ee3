/** The handful of Go string operations the collector relies on: `strings.Contains`,
    `strings.ReplaceAll`, `strings.Split` and the `%d` verb of `fmt`, with the prefix test
    that `Contains` and `ReplaceAll` are defined by.
    Strings are sequences of Unicode code points (Go runes). */
module Text {

  predicate HasPrefix(s: string, w: string) {
    |w| <= |s| && s[..|w|] == w
  }

  /** `strings.Contains(s, w)`: w occurs somewhere in s (the empty string occurs everywhere). */
  predicate Contains(s: string, w: string)
    decreases |s|
  {
    HasPrefix(s, w) || (|s| > 0 && Contains(s[1..], w))
  }

  /** `strings.ReplaceAll(s, pat, rep)` for a non-empty pattern `pat`: a left-to-right scan that replaces
      every non-overlapping occurrence of `pat` by `rep`. */
  function ReplaceAll(s: string, pat: string, rep: string): string
    requires |pat| > 0
    decreases |s|
  {
    if |s| == 0 then ""
    else if HasPrefix(s, pat) then rep + ReplaceAll(s[|pat|..], pat, rep)
    else [s[0]] + ReplaceAll(s[1..], pat, rep)
  }

  /** No character of `a` occurs in `b`. */
  predicate Disjoint(a: string, b: string) {
    forall i :: 0 <= i < |a| ==> a[i] !in b
  }

  /** A string without `pat` comes back from ReplaceAll unchanged. */
  lemma {:induction false} ReplaceAllWithoutOccurrence(s: string, pat: string, rep: string)
    requires |pat| > 0 && !Contains(s, pat)
    ensures ReplaceAll(s, pat, rep) == s
    decreases |s|
  {
    if |s| > 0 {
      ReplaceAllWithoutOccurrence(s[1..], pat, rep);
    }
  }

  /** If the replacement text shares no character with `w`, a prefix `w` of the result was already
      a prefix of the input. */
  lemma {:induction false} PrefixThroughReplace(t: string, pat: string, rep: string, w: string)
    requires |pat| > 0 && |rep| > 0 && Disjoint(rep, w)
    requires HasPrefix(ReplaceAll(t, pat, rep), w)
    ensures HasPrefix(t, w)
    decreases |t|
  {
    var r := ReplaceAll(t, pat, rep);
    if |w| == 0 {
    } else if |t| == 0 {
    } else {
      ReplaceAllHead(t, pat, rep);
      assert w[0] == r[0];
      if HasPrefix(t, pat) {
        assert false;
      }
      var rest := ReplaceAll(t[1..], pat, rep);
      assert r == [t[0]] + rest;
      assert rest[..|w| - 1] == r[1..|w|] == w[1..];
      assert Disjoint(rep, w[1..]);
      PrefixThroughReplace(t[1..], pat, rep, w[1..]);
      assert t[..|w|] == [t[0]] + t[1..][..|w| - 1];
    }
  }

  /** The first character ReplaceAll emits: the replacement's, or the input's own. */
  lemma ReplaceAllHead(t: string, pat: string, rep: string)
    requires |pat| > 0 && |rep| > 0 && |t| > 0
    ensures |ReplaceAll(t, pat, rep)| > 0
    ensures ReplaceAll(t, pat, rep)[0] == if HasPrefix(t, pat) then rep[0] else t[0]
  {
  }

  /** An occurrence of `w` in `a + b` where `a` holds no character of `w` lies inside `b`. */
  lemma {:induction false} ContainsPastForeign(a: string, b: string, w: string)
    requires |w| > 0 && Disjoint(a, w) && Contains(a + b, w)
    ensures Contains(b, w)
    decreases |a|
  {
    if |a| > 0 {
      assert (a + b)[0] == a[0];
      assert !HasPrefix(a + b, w);
      assert (a + b)[1..] == a[1..] + b;
      ContainsPastForeign(a[1..], b, w);
    } else {
      assert a + b == b;
    }
  }

  /** ReplaceAll leaves no occurrence of `pat` behind, as long as the replacement shares no character
      with `pat`: every `<br />` of a post and every newline of a preview is gone afterwards. */
  lemma {:induction false} ReplaceAllRemovesEvery(s: string, pat: string, rep: string)
    requires |pat| > 0 && |rep| > 0 && Disjoint(rep, pat)
    ensures !Contains(ReplaceAll(s, pat, rep), pat)
    decreases |s|
  {
    var r := ReplaceAll(s, pat, rep);
    if |s| == 0 {
      assert !HasPrefix(r, pat);
    } else if HasPrefix(s, pat) {
      ReplaceAllRemovesEvery(s[|pat|..], pat, rep);
      if Contains(r, pat) {
        ContainsPastForeign(rep, ReplaceAll(s[|pat|..], pat, rep), pat);
      }
    } else {
      var rest := ReplaceAll(s[1..], pat, rep);
      ReplaceAllRemovesEvery(s[1..], pat, rep);
      assert r == [s[0]] + rest && r[1..] == rest;
      if HasPrefix(r, pat) {
        assert rest[..|pat| - 1] == pat[1..];
        assert Disjoint(rep, pat[1..]);
        PrefixThroughReplace(s[1..], pat, rep, pat[1..]);
        assert false;
      }
    }
  }

  /** A one-character string occurs in s exactly when that character does. */
  lemma {:induction false} ContainsChar(s: string, c: char)
    ensures Contains(s, [c]) <==> c in s
    decreases |s|
  {
    if |s| > 0 {
      ContainsChar(s[1..], c);
      assert s == [s[0]] + s[1..];
    }
  }

  /** `strings.Split(s, sep)` for a one-character separator: the pieces between separators,
      in order; the empty string splits into one empty piece. */
  function Split(s: string, sep: char): (pieces: seq<string>)
    ensures |pieces| >= 1
    decreases |s|, 1
  {
    if |s| == 0 then [""] else SplitAt(s, sep)
  }

  /** `Split` of a non-empty string: a separator at its head starts a new piece, any other
      character joins the first piece of the rest. */
  function SplitAt(s: string, sep: char): (pieces: seq<string>)
    requires |s| > 0
    ensures |pieces| >= 1
    decreases |s|, 0
  {
    var rest := Split(s[1..], sep);
    if s[0] == sep then [""] + rest
    else [[s[0]] + rest[0]] + rest[1..]
  }

  /** `strings.Join(pieces, sep)`. */
  function Join(pieces: seq<string>, sep: char): string
    requires |pieces| >= 1
    decreases |pieces|
  {
    if |pieces| == 1 then pieces[0] else pieces[0] + [sep] + Join(pieces[1..], sep)
  }

  /** Joining the pieces back with the separator gives the original string, and no piece holds the
      separator. */
  lemma {:induction false} SplitJoin(s: string, sep: char)
    ensures Join(Split(s, sep), sep) == s
    ensures forall i :: 0 <= i < |Split(s, sep)| ==> sep !in Split(s, sep)[i]
    decreases |s|
  {
    if |s| > 0 {
      SplitJoin(s[1..], sep);
      var rest := Split(s[1..], sep);
      if s[0] == sep {
        assert Split(s, sep)[1..] == rest;
      } else {
        var pieces := Split(s, sep);
        if |rest| == 1 {
          assert pieces == [[s[0]] + rest[0]];
        } else {
          assert pieces[1..] == rest[1..];
          assert Join(rest, sep) == rest[0] + [sep] + Join(rest[1..], sep);
        }
        forall i | 0 <= i < |pieces| ensures sep !in pieces[i] {
          if i > 0 { assert pieces[i] == rest[i]; }
        }
      }
    }
  }

  /** Splitting a join of separator-free pieces gives the pieces back. */
  lemma {:induction false} JoinSplit(pieces: seq<string>, sep: char)
    requires |pieces| >= 1
    requires forall i :: 0 <= i < |pieces| ==> sep !in pieces[i]
    ensures Split(Join(pieces, sep), sep) == pieces
    decreases |pieces|, |pieces[0]|
  {
    var head := pieces[0];
    if |head| > 0 {
      var shorter := [head[1..]] + pieces[1..];
      assert forall i :: 0 <= i < |shorter| ==> sep !in shorter[i] by {
        forall i | 0 <= i < |shorter| ensures sep !in shorter[i] {
          if i == 0 { assert forall c :: c in head[1..] ==> c in head; } else { assert shorter[i] == pieces[i]; }
        }
      }
      JoinSplit(shorter, sep);
      var j := Join(pieces, sep);
      if |pieces| == 1 {
        assert j[1..] == Join(shorter, sep);
      } else {
        assert shorter[1..] == pieces[1..];
        assert j[1..] == Join(shorter, sep);
      }
      assert j[0] == head[0] && head[0] != sep;
      assert head == [head[0]] + head[1..];
      assert shorter[1..] == pieces[1..];
      assert pieces == [head] + pieces[1..];
    } else if |pieces| > 1 {
      JoinSplit(pieces[1..], sep);
      var j := Join(pieces, sep);
      assert j == [sep] + Join(pieces[1..], sep);
      assert j[1..] == Join(pieces[1..], sep);
    }
  }

  function DigitChar(d: nat): char
    requires d < 10
  {
    "0123456789"[d]
  }

  function DigitValue(c: char): nat {
    if '0' <= c <= '9' then (c as int - '0' as int) as nat else 0
  }

  /** The decimal digits of n, most significant first, without leading zeros. */
  function NatToString(n: nat): (s: string)
    ensures |s| >= 1
    decreases n
  {
    if n < 10 then [DigitChar(n)] else NatToString(n / 10) + [DigitChar(n % 10)]
  }

  /** `fmt.Sprintf("%d", n)`. */
  function IntToString(n: int): string {
    if n < 0 then "-" + NatToString(-n) else NatToString(n)
  }

  /** The value of a string of decimal digits. */
  function ParseNat(s: string): nat
    decreases |s|
  {
    if |s| == 0 then 0 else ParseNat(s[..|s| - 1]) * 10 + DigitValue(s[|s| - 1])
  }

  function ParseInt(s: string): int {
    if |s| > 0 && s[0] == '-' then 0 - ParseNat(s[1..]) else ParseNat(s)
  }

  /** The decimal form of a natural number reads back as that number and starts with a digit. */
  lemma {:induction false} NatToStringRoundTrip(n: nat)
    ensures ParseNat(NatToString(n)) == n
    ensures forall i :: 0 <= i < |NatToString(n)| ==> '0' <= NatToString(n)[i] <= '9'
    decreases n
  {
    if n >= 10 {
      NatToStringRoundTrip(n / 10);
      var s := NatToString(n);
      assert s[..|s| - 1] == NatToString(n / 10);
      forall i | 0 <= i < |s| ensures '0' <= s[i] <= '9' {
        if i < |s| - 1 { assert s[i] == NatToString(n / 10)[i]; }
      }
    }
  }

  /** `%d` is injective: the decimal form of any integer reads back as that integer, so distinct
      page numbers give distinct request URLs. */
  lemma IntToStringRoundTrip(n: int)
    ensures ParseInt(IntToString(n)) == n
  {
    var s := IntToString(n);
    if n < 0 {
      var m: nat := 0 - n;
      NatToStringRoundTrip(m);
      assert s == "-" + NatToString(m);
      assert s[0] == '-' && s[1..] == NatToString(m);
    } else {
      NatToStringRoundTrip(n);
      assert s[0] != '-';
    }
  }

  /** The decimal form of an integer is a single token: a sign and digits, never a line break. */
  lemma IntToStringHasNoNewline(n: int)
    ensures '\n' !in IntToString(n)
  {
    var m: nat := if n < 0 then 0 - n else n;
    NatToStringRoundTrip(m);
    var d := NatToString(m);
    assert '\n' !in d by {
      forall i | 0 <= i < |d| ensures d[i] != '\n' { }
    }
  }
}
