/**
  Sequential numbers for members, receipts, donations and registrations
  (apps/api/src/common/numbering.service.ts): a counter per organisation and kind,
  formatted by three string replacements.
 */
module Numbering {
  import opened Wrappers

  // ---- Decimal numerals ----

  function DigitChar(d: nat): char
    requires d < 10
  {
    '0' + d as char
  }

  predicate IsDigit(c: char) { '0' <= c <= '9' }

  /** `String(n)` */
  function Decimal(n: nat): (s: string)
    ensures s != "" && forall i :: 0 <= i < |s| ==> IsDigit(s[i])
  {
    if n < 10 then [DigitChar(n)] else Decimal(n / 10) + [DigitChar(n % 10)]
  }

  /** `s.padStart(width, "0")` */
  function PadStart(s: string, width: nat): string
    decreases width - |s|
  {
    if |s| >= width then s else PadStart("0" + s, width)
  }

  /** The number a digit string stands for. */
  function Parse(s: string): nat {
    if s == "" then 0
    else
      var c := s[|s| - 1];
      10 * Parse(s[..|s| - 1]) + if IsDigit(c) then (c - '0') as nat else 0
  }

  lemma {:induction false} ParseDecimal(n: nat)
    ensures Parse(Decimal(n)) == n
  {
    if n < 10 {
      assert Decimal(n)[..0] == "";
    } else {
      ParseDecimal(n / 10);
      assert Decimal(n)[..|Decimal(n)| - 1] == Decimal(n / 10);
    }
  }

  lemma {:induction false} ParseLeadingZero(s: string)
    ensures Parse("0" + s) == Parse(s)
  {
    if s != "" {
      ParseLeadingZero(s[..|s| - 1]);
      assert ("0" + s)[..|s|] == "0" + s[..|s| - 1];
    } else {
      assert "0" + s == "0" && "0"[..0] == "";
    }
  }

  lemma {:induction false} PadStartFacts(s: string, width: nat)
    requires forall i :: 0 <= i < |s| ==> IsDigit(s[i])
    ensures Parse(PadStart(s, width)) == Parse(s)
    ensures forall i :: 0 <= i < |PadStart(s, width)| ==> IsDigit(PadStart(s, width)[i])
    decreases width - |s|
  {
    if |s| < width {
      ParseLeadingZero(s);
      PadStartFacts("0" + s, width);
    }
  }

  /** No numeral but that of 0 begins with a zero. */
  lemma {:induction false} NoLeadingZero(n: nat)
    requires n > 0
    ensures Decimal(n)[0] != '0'
  {
    if n >= 10 { NoLeadingZero(n / 10); }
  }

  /** Padding puts zeros in front up to the width, and no more. */
  lemma {:induction false} PadExactly(s: string, width: nat)
    ensures var r := PadStart(s, width);
      && |r| == (if |s| < width then width else |s|) && r[|r| - |s|..] == s
      && forall i :: 0 <= i < |r| - |s| ==> r[i] == '0'
    decreases width - |s|
  {
    if |s| < width {
      PadExactly("0" + s, width);
      var r := PadStart("0" + s, width);
      assert r[|r| - |s|..] == r[|r| - |s| - 1..][1..];
      assert r[|r| - |s| - 1] == r[|r| - |s| - 1..][0];
    }
  }

  lemma {:induction false} DecimalLength(n: nat, k: nat, low: nat)
    requires k > 0 && low <= n < 10 * low && (k == 1 ==> low == 1) && (k > 1 ==> low % 10 == 0)
    requires k > 1 ==> PowerOfTen(low / 10, k - 1)
    ensures |Decimal(n)| == k
    decreases k
  {
    if k > 1 { DecimalLength(n / 10, k - 1, low / 10); }
  }

  predicate PowerOfTen(low: nat, k: nat) {
    if k <= 1 then low == 1 else low % 10 == 0 && PowerOfTen(low / 10, k - 1)
  }

  // ---- String.prototype.replace with a string pattern ----

  /** `token` stands at position `k` of `s`. */
  predicate At(s: string, token: string, k: nat) {
    k + |token| <= |s| && s[k..k + |token|] == token
  }

  function FirstAt(s: string, token: string, k: nat): (r: Option<nat>)
    ensures r.Some? ==> k <= r.value && At(s, token, r.value)
    ensures forall i :: k <= i && (r.Some? ==> i < r.value) ==> !At(s, token, i)
    decreases |s| - k
  {
    if k > |s| then None
    else if At(s, token, k) then Some(k)
    else FirstAt(s, token, k + 1)
  }

  /** GetSubstitution of section 22.1.3.18.1 of ECMA-262 edition 13, without captures. */
  function Substitution(replacement: string, before: string, matched: string, after: string): string {
    if |replacement| < 2 then replacement
    else if replacement[0] != '$' then [replacement[0]] + Substitution(replacement[1..], before, matched, after)
    else
      var rest := Substitution(replacement[2..], before, matched, after);
      match replacement[1]
      case '$' => "$" + rest
      case '&' => matched + rest
      case '`' => before + rest
      case '\'' => after + rest
      case _ => "$" + Substitution(replacement[1..], before, matched, after)
  }

  function Replace(s: string, token: string, replacement: string): string {
    match FirstAt(s, token, 0)
    case None => s
    case Some(k) =>
      var before, after := s[..k], s[k + |token|..];
      before + Substitution(replacement, before, token, after) + after
  }

  lemma {:induction false} NoDollar(replacement: string, before: string, matched: string, after: string)
    requires '$' !in replacement
    ensures Substitution(replacement, before, matched, after) == replacement
  {
    if |replacement| >= 2 { NoDollar(replacement[1..], before, matched, after); }
  }

  function Doubled(s: string): string {
    if s == "" then "" else (if s[0] == '$' then "$$" else [s[0]]) + Doubled(s[1..])
  }

  /** Doubled dollar signs stand for single ones, so any text can be put in as it is. */
  lemma {:induction false} DoubledStands(s: string, before: string, matched: string, after: string)
    ensures Substitution(Doubled(s), before, matched, after) == s
  {
    if s != "" {
      var rest := Doubled(s[1..]);
      DoubledStands(s[1..], before, matched, after);
      if s[0] == '$' {
        assert Doubled(s) == "$$" + rest && Doubled(s)[2..] == rest;
      } else {
        assert Doubled(s) == [s[0]] + rest && Doubled(s)[1..] == rest;
        if s[1..] == "" { assert rest == ""; } else { assert |Doubled(s)| >= 2; }
      }
    }
  }

  /** The other patterns stand for the text before, the token, and the text after. */
  lemma Patterns(before: string, matched: string, after: string)
    ensures Substitution("$`", before, matched, after) == before
    ensures Substitution("$&", before, matched, after) == matched
    ensures Substitution("$'", before, matched, after) == after
    ensures Substitution("$x", before, matched, after) == "$x"
  {
  }

  // ---- The formatted number ----

  const PREFIX_TOKEN: string := "{PREFIX}"
  const YEAR_TOKEN: string := "{YYYY}"
  const SEQ_TOKEN: string := "{SEQ}"

  function Format(format: string, prefix: string, year: nat, n: nat): string {
    var dated := Replace(Replace(format, PREFIX_TOKEN, prefix), YEAR_TOKEN, Decimal(year));
    Replace(dated, SEQ_TOKEN, PadStart(Decimal(n), 5))
  }

  /** What the organisation settings check before saving a format. */
  predicate ValidFormat(format: string) {
    exists k :: 0 <= k <= |format| && At(format, SEQ_TOKEN, k)
  }

  lemma TokenChars(s: string, token: string, k: nat, i: nat)
    requires At(s, token, k) && k <= i < k + |token|
    ensures s[i] == token[i - k]
  {
    assert s[i] == s[k..k + |token|][i - k];
  }

  /** Occurrences of two of the placeholders never overlap. */
  lemma TokensApart(s: string, token: string, k: nat, j: nat)
    requires token == PREFIX_TOKEN || token == YEAR_TOKEN
    requires At(s, token, k) && At(s, SEQ_TOKEN, j)
    ensures j + |SEQ_TOKEN| <= k || k + |token| <= j
  {
    if k < j < k + |token| {
      TokenChars(s, token, k, j);
      TokenChars(s, SEQ_TOKEN, j, j);
    }
    if j < k < j + |SEQ_TOKEN| {
      TokenChars(s, SEQ_TOKEN, j, k);
      TokenChars(s, token, k, k);
    }
    if j == k {
      TokenChars(s, SEQ_TOKEN, j, j + 1);
      TokenChars(s, token, k, k + 1);
    }
  }

  lemma AtParts(s: string, token: string, j: nat, k: nat, m: nat)
    requires At(s, token, j) && k <= m <= |s|
    ensures j + |token| <= k ==> At(s[..k], token, j)
    ensures m <= j ==> At(s[m..], token, j - m)
  {
    if j + |token| <= k { assert s[..k][j..j + |token|] == s[j..j + |token|]; }
    if m <= j { assert s[m..][j - m..j - m + |token|] == s[j..j + |token|]; }
  }

  lemma AtInsert(u: string, v: string, w: string, token: string, k: nat)
    ensures At(u, token, k) ==> At(u + v + w, token, k)
    ensures At(w, token, k) ==> At(u + v + w, token, |u| + |v| + k)
  {
    if At(u, token, k) { assert (u + v + w)[k..k + |token|] == u[k..k + |token|]; }
    if At(w, token, k) {
      var m := |u| + |v| + k;
      assert (u + v + w)[m..m + |token|] == w[k..k + |token|];
    }
  }

  /** Replacing another placeholder, by whatever text, leaves a sequence placeholder in the string. */
  lemma SeqSurvives(s: string, token: string, replacement: string)
    requires token == PREFIX_TOKEN || token == YEAR_TOKEN
    requires ValidFormat(s)
    ensures ValidFormat(Replace(s, token, replacement))
  {
    hide Substitution;
    var j: nat :| j <= |s| && At(s, SEQ_TOKEN, j);
    match FirstAt(s, token, 0)
    case None =>
    case Some(k) =>
      var before, after := s[..k], s[k + |token|..];
      var middle := Substitution(replacement, before, token, after);
      TokensApart(s, token, k, j);
      if j + |SEQ_TOKEN| <= k {
        AtParts(s, SEQ_TOKEN, j, k, k + |token|);
        AtInsert(before, middle, after, SEQ_TOKEN, j);
      } else {
        AtParts(s, SEQ_TOKEN, j, k, k + |token|);
        AtInsert(before, middle, after, SEQ_TOKEN, j - k - |token|);
      }
  }

  /** Two strings that differ only inside an equally long run of digits have the placeholder at the same positions. */
  lemma SamePlaces(u: string, x: string, y: string, w: string, k: nat)
    requires |x| == |y| && (forall i :: 0 <= i < |x| ==> IsDigit(x[i]))
    requires At(u + x + w, SEQ_TOKEN, k)
    ensures At(u + y + w, SEQ_TOKEN, k)
  {
    var s, t := u + x + w, u + y + w;
    assert forall i :: |u| <= i < |u| + |x| ==> s[i] == x[i - |u|];
    forall i | k <= i < k + |SEQ_TOKEN|
      ensures s[i] == t[i]
    {
      TokenChars(s, SEQ_TOKEN, k, i);
      assert !IsDigit(SEQ_TOKEN[i - k]);
    }
    assert t[k..k + |SEQ_TOKEN|] == s[k..k + |SEQ_TOKEN|];
  }

  lemma SameFirst(u: string, x: string, y: string, w: string)
    requires |x| == |y|
    requires forall i :: 0 <= i < |x| ==> IsDigit(x[i]) && IsDigit(y[i])
    ensures FirstAt(u + x + w, SEQ_TOKEN, 0) == FirstAt(u + y + w, SEQ_TOKEN, 0)
  {
    var s, t := u + x + w, u + y + w;
    if k :| FirstAt(s, SEQ_TOKEN, 0) == Some(k) { SamePlaces(u, x, y, w, k); }
    if k :| FirstAt(t, SEQ_TOKEN, 0) == Some(k) { SamePlaces(u, y, x, w, k); }
  }

  /** The text around the sequence digits has the same extent on both sides in every four-digit year. */
  lemma SameFrame(format: string, prefix: string, year: nat, year': nat)
    requires 1000 <= year < 10000 && 1000 <= year' < 10000
    ensures var t := Replace(format, PREFIX_TOKEN, prefix);
      var s, s' := Replace(t, YEAR_TOKEN, Decimal(year)), Replace(t, YEAR_TOKEN, Decimal(year'));
      |s| == |s'| && FirstAt(s, SEQ_TOKEN, 0) == FirstAt(s', SEQ_TOKEN, 0)
  {
    var t := Replace(format, PREFIX_TOKEN, prefix);
    assert PowerOfTen(1, 1) && PowerOfTen(10, 2) && PowerOfTen(100, 3);
    DecimalLength(year, 4, 1000);
    DecimalLength(year', 4, 1000);
    match FirstAt(t, YEAR_TOKEN, 0)
    case None =>
    case Some(k) =>
      var before, after := t[..k], t[k + |YEAR_TOKEN|..];
      NoDollar(Decimal(year), before, YEAR_TOKEN, after);
      NoDollar(Decimal(year'), before, YEAR_TOKEN, after);
      SameFirst(before, Decimal(year), Decimal(year'), after);
  }

  /** A number can be issued for one counter value only, whatever the years, prefix and format. */
  lemma FormatInjective(format: string, prefix: string, year: nat, n: nat, year': nat, n': nat)
    requires ValidFormat(format)
    requires 1000 <= year < 10000 && 1000 <= year' < 10000
    requires Format(format, prefix, year, n) == Format(format, prefix, year', n')
    ensures n == n'
  {
    var t := Replace(format, PREFIX_TOKEN, prefix);
    var s, s' := Replace(t, YEAR_TOKEN, Decimal(year)), Replace(t, YEAR_TOKEN, Decimal(year'));
    SeqSurvives(format, PREFIX_TOKEN, prefix);
    SeqSurvives(t, YEAR_TOKEN, Decimal(year));
    SameFrame(format, prefix, year, year');
    var k := FirstAt(s, SEQ_TOKEN, 0).value;
    SeqSlice(s, n, k);
    SeqSlice(s', n', k);
  }

  /** The padded counter is recovered from the formatted number by cutting off the text around it. */
  lemma SeqSlice(s: string, n: nat, k: nat)
    requires FirstAt(s, SEQ_TOKEN, 0) == Some(k)
    ensures var r := Replace(s, SEQ_TOKEN, PadStart(Decimal(n), 5));
      var tail := |s| - k - |SEQ_TOKEN|;
      0 <= k <= |r| - tail <= |r| && Parse(r[k..|r| - tail]) == n
  {
    var digits := PadStart(Decimal(n), 5);
    PadStartFacts(Decimal(n), 5);
    ParseDecimal(n);
    var before, after := s[..k], s[k + |SEQ_TOKEN|..];
    NoDollar(digits, before, SEQ_TOKEN, after);
    var r := before + digits + after;
    assert r[k..|r| - |after|] == digits;
  }

  // ---- The service ----

  datatype Kind = Membership | Receipt | DonationReceipt | Registration

  datatype Sequence = Sequence(last: nat, format: string, prefix: string)

  const DEFAULT_FORMAT: string := "{PREFIX}-{YYYY}-{SEQ}"

  function DefaultSequence(kind: Kind): Sequence {
    match kind
    case Membership => Sequence(0, DEFAULT_FORMAT, "MEM")
    case Receipt => Sequence(0, DEFAULT_FORMAT, "RCPT")
    case DonationReceipt => Sequence(0, DEFAULT_FORMAT, "DON")
    case Registration => Sequence(0, DEFAULT_FORMAT, "REG")
  }

  /** The settings table holds one sequence per organisation and kind. */
  datatype Key = Key(org: string, kind: Kind)

  /** A missing organisation row is created with the defaults. */
  function Current(rows: map<Key, Sequence>, key: Key): Sequence {
    if key in rows then rows[key] else DefaultSequence(key.kind)
  }

  function Advanced(rows: map<Key, Sequence>, key: Key): map<Key, Sequence> {
    var q := Current(rows, key);
    rows[key := q.(last := q.last + 1)]
  }

  class NumberingService {
    var rows: map<Key, Sequence>

    /** One atomic upsert of the counter, then formatting. */
    method Next(org: string, kind: Kind, year: nat) returns (number: string)
      modifies this
      ensures rows == Advanced(old(rows), Key(org, kind))
      ensures var q := rows[Key(org, kind)];
        q.last == Current(old(rows), Key(org, kind)).last + 1
        && number == Format(q.format, q.prefix, year, q.last)
    {
      hide Decimal, PadStart, Replace;
      var key := Key(org, kind);
      if key in rows {
        rows := rows[key := rows[key].(last := rows[key].last + 1)];
      } else {
        rows := rows[key := DefaultSequence(kind).(last := 1)];
      }
      var settings := rows[key];
      var seqText := PadStart(Decimal(settings.last), 5);
      number := Replace(settings.format, PREFIX_TOKEN, settings.prefix);
      number := Replace(number, YEAR_TOKEN, Decimal(year));
      number := Replace(number, SEQ_TOKEN, seqText);
    }
  }

  // ---- Any number of calls, for any organisations and kinds ----

  datatype Call = Call(key: Key, year: nat)

  ghost function After(rows: map<Key, Sequence>, calls: seq<Call>): map<Key, Sequence> {
    if calls == [] then rows
    else Advanced(After(rows, calls[..|calls| - 1]), calls[|calls| - 1].key)
  }

  /** The number that the `i`-th call returns. */
  ghost function Issued(rows: map<Key, Sequence>, calls: seq<Call>, i: nat): string
    requires i < |calls|
  {
    var key := calls[i].key;
    var q := Current(After(rows, calls[..i + 1]), key);
    Format(q.format, q.prefix, calls[i].year, q.last)
  }

  lemma {:induction false} CountersGrow(rows: map<Key, Sequence>, calls: seq<Call>, i: nat, j: nat, key: Key)
    requires i <= j <= |calls|
    ensures var q, q' := Current(After(rows, calls[..i]), key), Current(After(rows, calls[..j]), key);
      && q.format == q'.format && q.prefix == q'.prefix && q.last <= q'.last
      && (i < j && calls[j - 1].key == key ==> q.last < q'.last)
    decreases j
  {
    if i < j {
      CountersGrow(rows, calls, i, j - 1, key);
      assert calls[..j][..j - 1] == calls[..j - 1];
    }
  }

  lemma SettingsStay(rows: map<Key, Sequence>, calls: seq<Call>, i: nat, key: Key)
    requires i <= |calls|
    ensures var q, q' := Current(rows, key), Current(After(rows, calls[..i]), key);
      q.format == q'.format && q.prefix == q'.prefix
  {
    assert After(rows, []) == rows && calls[..0] == [];
    hide After, Current;
    CountersGrow(rows, calls, 0, i, key);
  }

  /** No number is issued twice for the same organisation and kind. */
  lemma NumbersNeverRepeat(rows: map<Key, Sequence>, calls: seq<Call>, i: nat, j: nat)
    requires i < j < |calls| && calls[i].key == calls[j].key
    requires ValidFormat(Current(rows, calls[i].key).format)
    requires forall k :: 0 <= k < |calls| ==> 1000 <= calls[k].year < 10000
    ensures Issued(rows, calls, i) != Issued(rows, calls, j)
  {
    hide Format, After, ValidFormat, Current;
    var key := calls[i].key;
    SettingsStay(rows, calls, i + 1, key);
    CountersGrow(rows, calls, i + 1, j + 1, key);
    var q, q' := Current(After(rows, calls[..i + 1]), key), Current(After(rows, calls[..j + 1]), key);
    if Issued(rows, calls, i) == Issued(rows, calls, j) {
      FormatInjective(q.format, q.prefix, calls[i].year, q.last, calls[j].year, q'.last);
    }
  }

  /** The format given to a new organisation passes the check. */
  lemma DefaultFormatValid(kind: Kind)
    ensures ValidFormat(DefaultSequence(kind).format)
  {
    assert At(DEFAULT_FORMAT, SEQ_TOKEN, 16);
  }

  // ---- Series of different organisations ----

  const DATED_TAIL: string := "-{YYYY}-{SEQ}"

  /** With its prefix in, the format reads `stem-{YYYY}-{SEQ}`, and the stem contains no placeholder. */
  predicate HasStem(format: string, prefix: string, stem: string) {
    Replace(format, PREFIX_TOKEN, prefix) == stem + DATED_TAIL && '{' !in stem
  }

  lemma FirstAfter(u: string, token: string, w: string)
    requires '{' !in u && token != "" && token[0] == '{'
    ensures FirstAt(u + token + w, token, 0) == Some(|u|)
  {
    var s := u + token + w;
    assert At(s, token, |u|) by { assert s[|u|..|u| + |token|] == token; }
    forall k: nat | k < |u|
      ensures !At(s, token, k)
    {
      if At(s, token, k) { TokenChars(s, token, k, k); }
    }
    hide At;
  }

  lemma ReplaceAfter(u: string, token: string, w: string, replacement: string)
    requires '{' !in u && token != "" && token[0] == '{' && '$' !in replacement
    ensures Replace(u + token + w, token, replacement) == u + replacement + w
  {
    FirstAfter(u, token, w);
    NoDollar(replacement, u, token, w);
    var s := u + token + w;
    assert s[..|u|] == u && s[|u| + |token|..] == w;
  }

  /** The default format has its prefix for a stem, unless the prefix contains a replacement pattern or brace. */
  lemma DefaultStem(prefix: string)
    requires '{' !in prefix && '$' !in prefix
    ensures HasStem(DEFAULT_FORMAT, prefix, prefix)
  {
    hide Replace;
    assert DEFAULT_FORMAT == "" + PREFIX_TOKEN + DATED_TAIL;
    ReplaceAfter("", PREFIX_TOKEN, DATED_TAIL, prefix);
    assert "" + prefix + DATED_TAIL == prefix + DATED_TAIL;
  }

  lemma FormatWithStem(format: string, prefix: string, stem: string, year: nat, n: nat)
    requires HasStem(format, prefix, stem)
    ensures Format(format, prefix, year, n) == stem + "-" + Decimal(year) + "-" + PadStart(Decimal(n), 5)
  {
    hide Replace, PadStart, Decimal;
    var y, d := Decimal(year), PadStart(Decimal(n), 5);
    PadStartFacts(Decimal(n), 5);
    WithStem(stem, y, d);
  }

  lemma WithStem(stem: string, y: string, d: string)
    requires '{' !in stem && (forall i :: 0 <= i < |y| ==> IsDigit(y[i])) && forall i :: 0 <= i < |d| ==> IsDigit(d[i])
    ensures Replace(Replace(stem + DATED_TAIL, YEAR_TOKEN, y), SEQ_TOKEN, d) == stem + "-" + y + "-" + d
  {
    hide Replace;
    var u, v := stem + "-", stem + "-" + y + "-";
    assert stem + DATED_TAIL == u + YEAR_TOKEN + "-{SEQ}" by { assert DATED_TAIL == "-" + YEAR_TOKEN + "-{SEQ}"; }
    ReplaceAfter(u, YEAR_TOKEN, "-{SEQ}", y);
    assert u + y + "-{SEQ}" == v + SEQ_TOKEN + "" by { assert "-{SEQ}" == "-" + SEQ_TOKEN + ""; }
    ReplaceAfter(v, SEQ_TOKEN, "", d);
    assert v + d + "" == stem + "-" + y + "-" + d;
  }

  /** The last dash of such a number ends the year. */
  lemma SameStem(stem: string, y: string, d: string, stem': string, y': string, d': string)
    requires |y| == |y'| && (forall i :: 0 <= i < |d| ==> IsDigit(d[i])) && forall i :: 0 <= i < |d'| ==> IsDigit(d'[i])
    requires stem + "-" + y + "-" + d == stem' + "-" + y' + "-" + d'
    ensures stem == stem' && y == y' && d == d'
  {
    var r, r' := stem + "-" + y + "-" + d, stem' + "-" + y' + "-" + d';
    var k, k' := |stem| + 1 + |y|, |stem'| + 1 + |y'|;
    assert r[k] == '-' && r'[k'] == '-';
    assert forall i :: k < i < |r| ==> r[i] == d[i - k - 1];
    assert forall i :: k' < i < |r'| ==> r'[i] == d'[i - k' - 1];
    assert k == k';
    assert r[..|stem|] == stem && r'[..|stem'|] == stem';
    assert r[|stem| + 1..k] == y && r'[|stem'| + 1..k'] == y';
    assert r[k + 1..] == d && r'[k' + 1..] == d';
  }

  /** Two such numbers are equal exactly if stem, four-digit year and counter are. */
  lemma FormatsMeetExactly(format: string, prefix: string, stem: string, year: nat, n: nat,
                           format': string, prefix': string, stem': string, year': nat, n': nat)
    requires HasStem(format, prefix, stem) && HasStem(format', prefix', stem')
    requires 1000 <= year < 10000 && 1000 <= year' < 10000
    ensures Format(format, prefix, year, n) == Format(format', prefix', year', n')
       <==> stem == stem' && year == year' && n == n'
  {
    hide Format, Replace;
    FormatWithStem(format, prefix, stem, year, n);
    FormatWithStem(format', prefix', stem', year', n');
    assert PowerOfTen(1, 1) && PowerOfTen(10, 2) && PowerOfTen(100, 3);
    hide Decimal, PadStart, Parse;
    DecimalLength(year, 4, 1000);
    DecimalLength(year', 4, 1000);
    PadStartFacts(Decimal(n), 5);
    PadStartFacts(Decimal(n'), 5);
    ParseDecimal(n);
    ParseDecimal(n');
    ParseDecimal(year);
    ParseDecimal(year');
    if Format(format, prefix, year, n) == Format(format', prefix', year', n') {
      SameStem(stem, Decimal(year), PadStart(Decimal(n), 5), stem', Decimal(year'), PadStart(Decimal(n'), 5));
    }
  }

  /**
    Whatever the organisations and kinds of two calls, over series with such formats they return one
    number exactly if stem, year and counter are the same: series with different stems never meet.
   */
  lemma SeriesMeetExactly(rows: map<Key, Sequence>, calls: seq<Call>, i: nat, j: nat, stem: string, stem': string)
    requires i < |calls| && j < |calls|
    requires 1000 <= calls[i].year < 10000 && 1000 <= calls[j].year < 10000
    requires var q := Current(rows, calls[i].key); HasStem(q.format, q.prefix, stem)
    requires var q := Current(rows, calls[j].key); HasStem(q.format, q.prefix, stem')
    ensures Issued(rows, calls, i) == Issued(rows, calls, j)
       <==> stem == stem' && calls[i].year == calls[j].year
            && Current(After(rows, calls[..i + 1]), calls[i].key).last
               == Current(After(rows, calls[..j + 1]), calls[j].key).last
  {
    hide Format, After, HasStem, Current;
    SettingsStay(rows, calls, i + 1, calls[i].key);
    SettingsStay(rows, calls, j + 1, calls[j].key);
    var q, q' := Current(After(rows, calls[..i + 1]), calls[i].key), Current(After(rows, calls[..j + 1]), calls[j].key);
    FormatsMeetExactly(q.format, q.prefix, stem, calls[i].year, q.last,
                       q'.format, q'.prefix, stem', calls[j].year, q'.last);
  }

  /** The first numbers of a kind in two new organisations are the same. */
  lemma OrganisationsMeet(org: string, org': string, kind: Kind, year: nat)
    requires org != org'
    ensures var calls := [Call(Key(org, kind), year), Call(Key(org', kind), year)];
      Issued(map[], calls, 0) == Issued(map[], calls, 1)
  {
    hide Format, DefaultSequence;
    var first, both := Call(Key(org, kind), year), [Call(Key(org, kind), year), Call(Key(org', kind), year)];
    assert both[..1] == [first] && both[..2] == both && [first][..0] == [];
    assert After(map[], [first]) == Advanced(map[], first.key);
    assert After(map[], both) == Advanced(After(map[], [first]), Key(org', kind));
  }

  /** A default number reads, for instance, MEM-2024-00007, with more digits from a hundred thousand on. */
  lemma DefaultNumber(kind: Kind, year: nat, n: nat)
    ensures var q := DefaultSequence(kind);
      var word := match kind
        case Membership => "MEM"
        case Receipt => "RCPT"
        case DonationReceipt => "DON"
        case Registration => "REG";
      q.last == 0 && Format(q.format, q.prefix, year, n) == word + "-" + Decimal(year) + "-" + PadStart(Decimal(n), 5)
  {
    DefaultStem(DefaultSequence(kind).prefix);
    FormatWithStem(DEFAULT_FORMAT, DefaultSequence(kind).prefix, DefaultSequence(kind).prefix, year, n);
    hide Format, Decimal, PadStart;
  }

  /** So numbers of different kinds are never the same. */
  lemma KindsApart(kind: Kind, kind': Kind, year: nat, year': nat, n: nat, n': nat)
    requires kind != kind' && 1000 <= year < 10000 && 1000 <= year' < 10000
    ensures Format(DEFAULT_FORMAT, DefaultSequence(kind).prefix, year, n)
         != Format(DEFAULT_FORMAT, DefaultSequence(kind').prefix, year', n')
  {
    var p, q := DefaultSequence(kind).prefix, DefaultSequence(kind').prefix;
    DefaultStem(p);
    DefaultStem(q);
    assert p != q;
    hide Format, HasStem;
    FormatsMeetExactly(DEFAULT_FORMAT, p, p, year, n, DEFAULT_FORMAT, q, q, year', n');
  }
}
