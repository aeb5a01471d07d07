/**
 * What `readNumber` and `readString` do on every input, stated without
 * their loops.
 *
 * A number fails with "Invalid exponent" exactly at a `+` or `-` that follows
 * the exponent marker and has no digit after it. A string literal closes at
 * its first unescaped delimiter, where a character is escaped when an odd run
 * of backslashes precedes it. A literal without one is dropped silently, and
 * the only failure is a `\u` without four hexadecimal digits.
 */
module LexerScans {
  import opened Wrappers
  import opened CharClass
  import opened Lexer

  // ---------------------------------------------------------------------------
  // Numbers

  /** What `readNumber`, started at `i` with `number`, has collected on reaching `k`. */
  function CollectedAt(text: string, i: nat, k: nat, number: string): (r: string)
    requires i <= k <= |text|
    ensures |r| == |number| + k - i
  {
    number + LowerAsciiString(text[i..k])
  }

  /**
   * The "Invalid exponent" case at `k`: a `+` or `-` right after the `e` that
   * ends `prev`, with no digit after it (or nothing at all).
   */
  predicate DanglingSign(text: string, k: nat, prev: string)
    requires k < |text|
  {
    (text[k] == '+' || text[k] == '-') && |prev| > 0 && prev[|prev| - 1] == 'e'
    && !(k + 1 < |text| && IsDigit(text[k + 1]))
  }

  lemma CollectedStep(text: string, i: nat, k: nat, number: string)
    requires i < k <= |text|
    ensures CollectedAt(text, i + 1, k, number + [LowerAscii(text[i])]) == CollectedAt(text, i, k, number)
  {
    NumberAppend(number, text, i, k);
  }

  /**
   * A sign after an exponent marker: with no digit after it `readNumber`
   * throws "Invalid exponent", otherwise it takes the sign and reads on.
   */
  lemma ExponentSignStep(mode: Mode, text: string, i: nat, number: string)
    requires i < |text| && (text[i] == '+' || text[i] == '-')
    requires |number| > 0 && number[|number| - 1] == 'e'
    ensures DanglingSign(text, i, number) ==> ReadNumber(mode, text, i, number) == Err(InvalidExponent)
    ensures !DanglingSign(text, i, number) ==>
      ReadNumber(mode, text, i, number) == ReadNumber(mode, text, i + 1, number + [text[i]])
  {
    assert LowerAscii(text[i]) == text[i];
  }

  /** No dangling sign at any position in `[i, j)` of the number collected from `i`. */
  predicate NoDanglingIn(text: string, i: nat, j: nat, number: string)
    requires i <= j <= |text|
  {
    forall k :: i <= k < j ==> !DanglingSign(text, k, CollectedAt(text, i, k, number))
  }

  /**
   * What the outcome of `readNumber` from `i` says about the text: it fails
   * only at a dangling sign it reaches, and a number it reads has no dangling
   * sign up to and including where it stops.
   */
  predicate NumberAgrees(text: string, i: nat, number: string, r: Result<(string, nat), LexError>)
    requires i <= |text|
  {
    && (r.Err? ==> exists k :: i <= k < |text| && DanglingSign(text, k, CollectedAt(text, i, k, number)))
    && (r.Ok? ==> i <= r.value.1 <= |text| && NoDanglingIn(text, i, if r.value.1 < |text| then r.value.1 + 1 else |text|, number))
  }

  /** An outcome that agrees with the text from `i + 1` also does from `i`, when `i` is no dangling sign. */
  lemma NumberAgreesEarlier(text: string, i: nat, number: string, r: Result<(string, nat), LexError>)
    requires i < |text| && !DanglingSign(text, i, number)
    requires NumberAgrees(text, i + 1, number + [LowerAscii(text[i])], r)
    ensures CollectedAt(text, i, i, number) == number
    ensures NumberAgrees(text, i, number, r)
  {
    LowerEmpty(text, i);
    var number' := number + [LowerAscii(text[i])];
    if r.Err? {
      var k :| i + 1 <= k < |text| && DanglingSign(text, k, CollectedAt(text, i + 1, k, number'));
      CollectedStep(text, i, k, number);
    } else {
      var j := if r.value.1 < |text| then r.value.1 + 1 else |text|;
      forall k | i <= k < j ensures !DanglingSign(text, k, CollectedAt(text, i, k, number)) {
        if k > i {
          CollectedStep(text, i, k, number);
        }
      }
    }
  }

  /** `readNumber` from any position agrees with the text it reads. */
  lemma {:induction false} InvalidExponentIffDanglingSign(mode: Mode, text: string, i: nat, number: string)
    requires i <= |text|
    ensures NumberAgrees(text, i, number, ReadNumber(mode, text, i, number))
    decreases |text| - i
  {
    if i < |text| {
      var ch := LowerAscii(text[i]);
      var next := Peek(text, i, 1);
      var prevIsE := |number| > 0 && number[|number| - 1] == 'e';
      assert CollectedAt(text, i, i, number) == number by { LowerEmpty(text, i); }
      if ch == '.' || IsDigit(ch)
         || (ch == 'e' && PeekIsExpOperator(mode, next))
         || (IsExpOperator(ch) && prevIsE && next.Some? && IsDigit(next.value)) {
        InvalidExponentIffDanglingSign(mode, text, i + 1, number + [ch]);
        NumberAgreesEarlier(text, i, number, ReadNumber(mode, text, i + 1, number + [ch]));
      } else if IsExpOperator(ch) && prevIsE {
        assert DanglingSign(text, i, number);
      }
    }
  }

  /** Without a dangling sign from `i` on, `readNumber` does not fail. */
  lemma NoDanglingSignReads(mode: Mode, text: string, i: nat, number: string)
    requires i <= |text|
    requires NoDanglingIn(text, i, |text|, number)
    ensures ReadNumber(mode, text, i, number).Ok?
  {
    InvalidExponentIffDanglingSign(mode, text, i, number);
  }

  /** The number branch of the lexer fails exactly as `readNumber` from the first character does. */
  lemma NumberStepFailsAtDanglingSign(mode: Mode, text: string, i: nat)
    requires i < |text| && StartsNumber(mode, text, i)
    ensures NumberStep(mode, text, i).Err? ==> exists k :: i <= k < |text| && DanglingSign(text, k, CollectedAt(text, i, k, ""))
    ensures NoDanglingIn(text, i, |text|, "") ==> NumberStep(mode, text, i).Ok?
  {
    InvalidExponentIffDanglingSign(mode, text, i, "");
  }

  // ---------------------------------------------------------------------------
  // Strings

  /**
   * Whether the character at `k` is escaped: an odd run of backslashes, all
   * at or after the literal's first character `lo`, ends right before it.
   */
  predicate EscapedAt(text: string, lo: nat, k: nat)
    requires lo <= k <= |text|
    decreases k - lo
  {
    k > lo && text[k - 1] == '\\' && !EscapedAt(text, lo, k - 1)
  }

  /** An unescaped `delim` at `k`: where the literal whose body starts at `lo` can close. */
  predicate ClosesAt(text: string, lo: nat, delim: char, k: nat)
    requires lo <= k < |text|
  {
    text[k] == delim && !EscapedAt(text, lo, k)
  }

  /** An escaped `u` at `k` not followed by four hexadecimal digits. */
  predicate BadUnicodeAt(text: string, lo: nat, k: nat)
    requires lo <= k < |text|
  {
    text[k] == 'u' && EscapedAt(text, lo, k) && !IsHex4(Substring(text, k + 1, k + 5))
  }

  /** No position in `[a, b)` closes the literal. */
  predicate NoCloseIn(text: string, lo: nat, delim: char, a: nat, b: nat)
    requires lo <= a <= b <= |text|
  {
    forall k :: a <= k < b ==> !ClosesAt(text, lo, delim, k)
  }

  /** No position in `[a, b)` is a bad `\u`. */
  predicate NoBadUnicodeIn(text: string, lo: nat, a: nat, b: nat)
    requires lo <= a <= b <= |text|
  {
    forall k :: a <= k < b ==> !BadUnicodeAt(text, lo, k)
  }

  /** `k` is the first position from `a` on that closes the literal. */
  predicate FirstCloseAt(text: string, lo: nat, delim: char, a: nat, k: nat)
    requires lo <= a <= k < |text|
  {
    ClosesAt(text, lo, delim, k) && NoCloseIn(text, lo, delim, a, k)
  }

  /** A bad `\u` comes from `a` on, before anything closes the literal. */
  predicate BadUnicodeBeforeClose(text: string, lo: nat, delim: char, a: nat)
    requires lo <= a <= |text|
  {
    exists k :: a <= k < |text| && BadUnicodeAt(text, lo, k) && NoCloseIn(text, lo, delim, a, k)
  }

  /** What the outcome of scanning the literal's body from `i` says about the text. */
  predicate ScanAgrees(text: string, lo: nat, delim: char, i: nat, r: Result<StringScan, LexError>)
    requires lo <= i <= |text|
  {
    && (r.Ok? && r.value.Closed? ==>
          && i < r.value.next <= |text| && FirstCloseAt(text, lo, delim, i, r.value.next - 1)
          && NoBadUnicodeIn(text, lo, i, r.value.next - 1))
    && (r.Ok? && r.value.Unterminated? ==> NoCloseIn(text, lo, delim, i, |text|) && NoBadUnicodeIn(text, lo, i, |text|))
    && (r.Err? ==> BadUnicodeBeforeClose(text, lo, delim, i))
  }

  /**
   * An outcome that agrees with the text from `j` also does from an earlier
   * `i`, when nothing between closes the literal or is a bad `\u`.
   */
  lemma ScanAgreesEarlier(text: string, lo: nat, delim: char, i: nat, j: nat, r: Result<StringScan, LexError>)
    requires lo <= i <= j <= |text|
    requires NoCloseIn(text, lo, delim, i, j) && NoBadUnicodeIn(text, lo, i, j) && ScanAgrees(text, lo, delim, j, r)
    ensures ScanAgrees(text, lo, delim, i, r)
  {
    if r.Err? {
      var k :| j <= k < |text| && BadUnicodeAt(text, lo, k) && NoCloseIn(text, lo, delim, j, k);
      assert NoCloseIn(text, lo, delim, i, k);
    }
  }

  /**
   * After a decoded escape at `i` the text is unescaped again, and nothing
   * the escape covers closes the literal or is a bad `\u`.
   */
  lemma EscapedRun(text: string, lo: nat, delim: char, i: nat, next: nat)
    requires lo <= i < |text| && EscapedAt(text, lo, i) && IsQuote(delim)
    requires DecodeEscape(text, i).Ok? && next == DecodeEscape(text, i).value.1
    ensures i < next <= |text| && !EscapedAt(text, lo, next)
    ensures NoCloseIn(text, lo, delim, i, next)
    ensures NoBadUnicodeIn(text, lo, i, next)
  {
    if text[i] == 'u' {
      HexDigitsInert(text, lo, delim, i);
    }
    EscapeIsNotBad(text, lo, delim, i, next);
  }

  /** Nothing a decoded escape covers is a bad `\u`. */
  lemma EscapeIsNotBad(text: string, lo: nat, delim: char, i: nat, next: nat)
    requires lo <= i < |text| && IsQuote(delim)
    requires DecodeEscape(text, i).Ok? && next == DecodeEscape(text, i).value.1
    ensures next <= |text| && NoBadUnicodeIn(text, lo, i, next)
  {
    assert !BadUnicodeAt(text, lo, i);
    if text[i] == 'u' {
      HexDigitsInert(text, lo, delim, i);
    }
  }

  /** The four hexadecimal digits of a `\u` escape at `i` neither close the literal nor start an escape. */
  lemma HexDigitsInert(text: string, lo: nat, delim: char, i: nat)
    requires lo <= i < |text| && IsQuote(delim)
    requires IsHex4(Substring(text, i + 1, i + 5))
    ensures i + 5 <= |text|
    ensures forall k :: i < k < i + 5 ==> !ClosesAt(text, lo, delim, k) && !BadUnicodeAt(text, lo, k)
  {
    var hex := Substring(text, i + 1, i + 5);
    assert hex == text[i + 1..i + 5];
    forall k | i < k < i + 5 ensures !ClosesAt(text, lo, delim, k) && !BadUnicodeAt(text, lo, k) {
      assert text[k] == hex[k - i - 1];
      assert IsHexDigit(text[k]);
    }
  }

  /** A decoded escape at `i` hands the scan on to `next`, where the text is unescaped again. */
  lemma ScanEscapedStep(text: string, lo: nat, i: nat, delim: char, str: string, raw: string, c: char, next: nat)
    requires lo <= i < |text| && IsQuote(delim) && EscapedAt(text, lo, i)
    requires |raw| > 0 && raw[0] == delim
    requires DecodeEscape(text, i) == Ok((c, next))
    requires ScanAgrees(text, lo, delim, next, ReadString(text, next, delim, str + [c], raw + [text[i]], false))
    ensures ScanAgrees(text, lo, delim, i, ReadString(text, i, delim, str, raw, true))
  {
    EscapedRun(text, lo, delim, i, next);
    var r := ReadString(text, next, delim, str + [c], raw + [text[i]], false);
    assert ReadString(text, i, delim, str, raw, true) == r;
    ScanAgreesEarlier(text, lo, delim, i, next, r);
  }

  /** A `\u` without four hexadecimal digits at `i` fails the scan there. */
  lemma ScanBadEscape(text: string, lo: nat, i: nat, delim: char, str: string, raw: string)
    requires lo <= i < |text| && EscapedAt(text, lo, i)
    requires |raw| > 0 && raw[0] == delim
    requires DecodeEscape(text, i).Err?
    ensures ScanAgrees(text, lo, delim, i, ReadString(text, i, delim, str, raw, true))
  {
    assert BadUnicodeAt(text, lo, i) && NoCloseIn(text, lo, delim, i, i);
  }

  /**
   * `readString` from `i`, in the escape state the text gives `i`: a closed
   * literal ends at the first unescaped delimiter, an unterminated one has
   * none, a failure comes from a bad `\u` before any closing delimiter, and
   * neither a closed nor an unterminated literal holds a bad `\u`.
   */
  lemma {:induction false} ReadStringScan(text: string, lo: nat, i: nat, delim: char, str: string, raw: string)
    requires lo <= i <= |text| && IsQuote(delim)
    requires |raw| > 0 && raw[0] == delim
    ensures ScanAgrees(text, lo, delim, i, ReadString(text, i, delim, str, raw, EscapedAt(text, lo, i)))
    decreases |text| - i
  {
    if i < |text| {
      var ch := text[i];
      var raw' := raw + [ch];
      if EscapedAt(text, lo, i) {
        match DecodeEscape(text, i)
        case Err(_) =>
          ScanBadEscape(text, lo, i, delim, str, raw);
        case Ok((c, next)) =>
          EscapedRun(text, lo, delim, i, next);
          ReadStringScan(text, lo, next, delim, str + [c], raw');
          ScanEscapedStep(text, lo, i, delim, str, raw, c, next);
      } else if ch == delim {
        assert FirstCloseAt(text, lo, delim, i, i);
      } else {
        var escape' := ch == '\\';
        var str' := if escape' then str else str + [ch];
        assert EscapedAt(text, lo, i + 1) == escape';
        var r := ReadString(text, i + 1, delim, str', raw', escape');
        assert ReadString(text, i, delim, str, raw, false) == r;
        ReadStringScan(text, lo, i + 1, delim, str', raw');
        ScanAgreesEarlier(text, lo, delim, i, i + 1, r);
      }
    }
  }

  /**
   * The string branch of the lexer, on every text: an error exactly when a
   * bad `\u` comes before the first unescaped closing quote; otherwise a
   * token exactly when such a quote follows, ending at the first one, and
   * no token and no error when none does.
   */
  lemma StringStepScan(text: string, i: nat)
    requires i < |text| && IsQuote(text[i])
    ensures var r := StringStep(text, i); var lo := i + 1; var delim := text[i];
      && (r.Ok? && r.value.token.Some? ==> lo <= r.value.next <= |text| && FirstCloseAt(text, lo, delim, lo, r.value.next - 1))
      && (r.Ok? ==> (r.value.token.None? <==> NoCloseIn(text, lo, delim, lo, |text|)))
      && (r.Err? <==> BadUnicodeBeforeClose(text, lo, delim, lo))
      && (NoCloseIn(text, lo, delim, lo, |text|) && NoBadUnicodeIn(text, lo, lo, |text|) ==> r == Ok(Step(None, |text|)))
  {
    var lo := i + 1;
    var delim := text[i];
    assert !EscapedAt(text, lo, lo);
    ReadStringScan(text, lo, lo, delim, "", [delim]);
    var scan := ReadString(text, lo, delim, "", [delim], false);
    if scan.Ok? && scan.value.Closed? {
      assert ClosesAt(text, lo, delim, scan.value.next - 1);
    }
  }

  lemma SliceCons(a: string, s: string, j: nat, k: nat)
    requires j < k <= |s|
    ensures (a + [s[j]]) + s[j + 1..k] == a + s[j..k]
  {
    assert s[j..k] == [s[j]] + s[j + 1..k];
  }

  /** A body with no backslash and no delimiter before `k` is copied as it is, up to the delimiter at `k`. */
  lemma {:induction false} ReadPlainBody(text: string, j: nat, k: nat, delim: char, str: string, raw: string)
    requires j <= k < |text| && text[k] == delim
    requires forall m :: j <= m < k ==> text[m] != delim && text[m] != '\\'
    requires |raw| > 0 && raw[0] == delim
    ensures ReadString(text, j, delim, str, raw, false)
         == Ok(Closed(Token(raw + text[j..k + 1], StringValue(str + text[j..k]), false), k + 1))
    decreases k - j
  {
    if j == k {
      assert text[j..k + 1] == [delim] && text[j..k] == [];
      assert str + [] == str;
    } else {
      ReadPlainBody(text, j + 1, k, delim, str + [text[j]], raw + [text[j]]);
      SliceCons(raw, text, j, k + 1);
      SliceCons(str, text, j, k);
    }
  }

  /**
   * A literal with no backslash closes at its first delimiter, and its value
   * is the text between the quotes.
   */
  lemma PlainStringStep(text: string, i: nat, k: nat)
    requires i < k < |text| && IsQuote(text[i]) && text[k] == text[i]
    requires forall m :: i < m < k ==> text[m] != text[i] && text[m] != '\\'
    ensures StringStep(text, i) == Ok(Step(Some(Token(text[i..k + 1], StringValue(text[i + 1..k]), false)), k + 1))
  {
    ReadPlainBody(text, i + 1, k, text[i], "", [text[i]]);
    assert [text[i]] + text[i + 1..k + 1] == text[i..k + 1];
    assert "" + text[i + 1..k] == text[i + 1..k];
  }
}
