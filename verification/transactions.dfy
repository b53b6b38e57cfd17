/**
 * The Field Extractors (`parse_transaction`): one transaction blob becomes
 * a record of date, amount, direction, description, category and reference
 * number. The blob is first normalised (stripped, every whitespace run
 * made a single space); every extractor then reads the normalised text.
 */
module Transactions {
  import opened Wrappers
  import opened Text
  import opened Search
  import opened Dates
  import opened Numbers
  import opened Description
  import opened Categories

  /**
   * One parsed transaction. `amount` is `round(amount, 2)` in hundredths;
   * `date` is the calendar date the statement's date text denotes.
   */
  datatype Transaction = Transaction(
    amount: nat,
    direction: Direction,
    date: Option<Date>,
    description: string,
    category: string,
    reference: Option<string>)

  /** `"TRANSFER TO" in txn.upper() or "/DR/" in txn.upper()`. */
  predicate HasDebitMarker(txn: string) {
    Contains(Upper(txn), "TRANSFER TO") || Contains(Upper(txn), "/DR/")
  }

  /** `"TRANSFER FROM" in txn.upper() or "/CR/" in txn.upper()`. */
  predicate HasCreditMarker(txn: string) {
    Contains(Upper(txn), "TRANSFER FROM") || Contains(Upper(txn), "/CR/")
  }

  /** The direction test: the debit markers are looked for first. */
  function DirectionOf(txn: string): Direction {
    if HasDebitMarker(txn) then Debit
    else if HasCreditMarker(txn) then Credit
    else Unknown
  }

  /**
   * `\s+\d+\s+-\s+` from `i` on, with `dashes` dash separators: the part
   * the two structural patterns share after their literal heads ("TRANSFER
   * TO", "TRANSFER FROM"), up to where the amount must begin.
   */
  function TransferTailEnd(s: string, i: nat, dashes: nat): (r: Option<nat>)
    requires i <= |s|
    ensures r.Some? ==> i < r.value <= |s|
    ensures r.Some? ==> exists a: nat, c: nat, b: nat ::
      SpaceRun(s, i, a) && DigitRun(s, a, c) && SpaceRun(s, c, b) && Separators(s, b, dashes, r.value)
  {
    var a := SpaceEnd(s, i);
    if i < a && a < |s| && IsDigit(s[a]) then
      var c := DigitEnd(s, a);
      var b := SpaceEnd(s, c);
      if c < b then
        var r := SeparatorsEnd(s, b, dashes);
        assert r.Some? ==> SpaceRun(s, i, a) && DigitRun(s, a, c) && SpaceRun(s, c, b) && Separators(s, b, dashes, r.value);
        r
      else None
    else None
  }

  /** `\s+` spans `[a, b)`. */
  ghost predicate SpaceRun(s: string, a: nat, b: nat) {
    a < b <= |s| && forall k :: a <= k < b ==> IsSpace(s[k])
  }

  /** `\d+` spans `[a, b)`. */
  ghost predicate DigitRun(s: string, a: nat, b: nat) {
    a < b <= |s| && forall k :: a <= k < b ==> IsDigit(s[k])
  }

  /** One separator `-\s+` spans `[i, b)`. */
  ghost predicate Dash(s: string, i: nat, b: nat) {
    i < |s| && s[i] == '-' && SpaceRun(s, i + 1, b)
  }

  /** `[i, j)` reads as `n` separators `-\s+`. */
  ghost predicate Separators(s: string, i: nat, n: nat, j: nat)
    decreases n
  {
    if n == 0 then i == j
    else exists b: nat :: Dash(s, i, b) && Separators(s, b, n - 1, j)
  }

  /** `-\s+` repeated `dashes` times from `i`: where the separators end. */
  function SeparatorsEnd(s: string, i: nat, dashes: nat): (r: Option<nat>)
    requires i <= |s|
    ensures r.Some? ==> i <= r.value <= |s|
    ensures r.Some? ==> Separators(s, i, dashes, r.value)
    decreases dashes
  {
    if dashes == 0 then Some(i)
    else if i < |s| && s[i] == '-' then
      var b := SpaceEnd(s, i + 1);
      if i + 1 < b then
        var r := SeparatorsEnd(s, b, dashes - 1);
        assert r.Some? ==> Dash(s, i, b) && Separators(s, b, dashes - 1, r.value);
        r
      else None
    else None
  }

  /** The shared tail, then the amount `\d+(?:,\d+)*(?:\.\d+)?` that the pattern captures. */
  function TransferTailAt(s: string, i: nat, dashes: nat): Option<Decimal>
    requires i <= |s|
  {
    match TransferTailEnd(s, i, dashes)
    case None => None
    case Some(j) =>
      match NumberAt(s, j)
      case Some((_, v)) => Some(v)
      case None => None
  }

  /** `TRANSFER TO\s+\d+\s+-\s+(amount)`, case-sensitive, at `i`: the debit amount. */
  function DebitTransferAt(s: string, i: nat): Option<Decimal> {
    if LitAt(s, i, "TRANSFER TO") then TransferTailAt(s, i + 11, 1) else None
  }

  /** `TRANSFER FROM\s+\d+\s+-\s+-\s+(amount)`, case-sensitive, at `i`: the credit amount. */
  function CreditTransferAt(s: string, i: nat): Option<Decimal> {
    if LitAt(s, i, "TRANSFER FROM") then TransferTailAt(s, i + 13, 2) else None
  }

  /** The positional fallback on the numeric tokens: two tokens give the first, more give the second. */
  function FallbackAmount(nums: seq<Decimal>): (amount: Decimal)
    ensures |nums| < 2 ==> amount == Zero
    ensures |nums| == 2 ==> amount == nums[0]
    ensures |nums| >= 3 ==> amount == nums[1]
  {
    if |nums| == 2 then nums[0] else if |nums| >= 3 then nums[1] else Zero
  }

  /** The amount of a transaction of the given direction, before rounding. */
  function AmountOf(txn: string, direction: Direction): Decimal {
    var structural := match direction
      case Debit => Leftmost(txn, DebitTransferAt)
      case Credit => Leftmost(txn, CreditTransferAt)
      case Unknown => None;
    if direction == Unknown then Zero
    else if structural.Some? then structural.value.1
    else FallbackAmount(Tokens(txn))
  }

  /** `d` is the whole run of digits that begins at `a`: `\d+` taken greedily there. */
  ghost predicate DigitsAt(s: string, a: nat, d: string) {
    a + |d| <= |s| && d == s[a..a + |d|] && (a + |d| == |s| || !IsDigit(s[a + |d|]))
  }

  /** `(?:/CR/|/DR/)(\d{6,})`: the digits right after a "/CR/" or "/DR/" marker. */
  function MarkerRefAt(s: string, i: nat): (r: Option<string>)
    ensures r.Some? ==> |r.value| >= 6 && AllDigits(r.value)
    ensures r.Some? ==> (LitAt(s, i, "/CR/") || LitAt(s, i, "/DR/")) && DigitsAt(s, i + 4, r.value)
  {
    if LitAt(s, i, "/CR/") || LitAt(s, i, "/DR/") then
      var e := DigitEnd(s, i + 4);
      if e - (i + 4) >= 6 then
        assert DigitsAt(s, i + 4, s[i + 4..e]);
        Some(s[i + 4..e])
      else None
    else None
  }

  /** `TRANSFER (?:FROM|TO)\s+(\d{10,})`: an account number of at least ten digits. */
  function TransferRefAt(s: string, i: nat): (r: Option<string>)
    ensures r.Some? ==> |r.value| >= 10 && AllDigits(r.value)
    ensures r.Some? ==> exists a: nat ::
      && ((LitAt(s, i, "TRANSFER FROM") && SpaceRun(s, i + 13, a)) || (LitAt(s, i, "TRANSFER TO") && SpaceRun(s, i + 11, a)))
      && DigitsAt(s, a, r.value)
  {
    var w := if LitAt(s, i, "TRANSFER FROM") then i + 13 else if LitAt(s, i, "TRANSFER TO") then i + 11 else 0;
    if w == 0 then None
    else
      var a := SpaceEnd(s, w);
      var e := DigitEnd(s, a);
      if w < a && e - a >= 10 then
        assert SpaceRun(s, w, a) && DigitsAt(s, a, s[a..e]);
        Some(s[a..e])
      else None
  }

  /**
   * `\b(\d{12,})\b`: a run of twelve or more digits standing as a word of
   * its own. A shorter run cannot be taken instead, as no word boundary
   * falls between two digits.
   */
  function LongNumberAt(s: string, i: nat): (r: Option<string>)
    ensures r.Some? ==> |r.value| >= 12 && AllDigits(r.value)
    ensures r.Some? ==> DigitsAt(s, i, r.value)
    ensures r.Some? ==> (i == 0 || !IsWordChar(s[i - 1])) && (i + |r.value| == |s| || !IsWordChar(s[i + |r.value|]))
  {
    if i < |s| && IsDigit(s[i]) && (i == 0 || !IsWordChar(s[i - 1])) then
      var e := DigitEnd(s, i);
      if e - i >= 12 && (e == |s| || !IsWordChar(s[e])) then
        assert |s[i..e]| == e - i && DigitsAt(s, i, s[i..e]);
        Some(s[i..e])
      else None
    else None
  }

  predicate IsRefPunct(c: char) { c == '.' || c == ':' }

  /** After the "Ref No" label at `i`, `[\.:]*` spans up to `p` and `\s*` from `p` up to `a`. */
  ghost predicate LabelGap(s: string, i: nat, p: nat, a: nat) {
    && i + 6 <= p <= a <= |s|
    && (forall k :: i + 6 <= k < p ==> IsRefPunct(s[k]))
    && (forall k :: p <= k < a ==> IsSpace(s[k]))
  }

  /** `Ref No[\.:]*\s*(\d{6,})`: the number after a "Ref No" label. */
  function RefLabelAt(s: string, i: nat): (r: Option<string>)
    ensures r.Some? ==> |r.value| >= 6 && AllDigits(r.value)
    ensures r.Some? ==> LitAt(s, i, "Ref No") && exists p: nat, a: nat :: LabelGap(s, i, p, a) && DigitsAt(s, a, r.value)
  {
    if LitAt(s, i, "Ref No") then
      var p := SpanEnd(s, i + 6, IsRefPunct);
      var b := SpaceEnd(s, p);
      var e := DigitEnd(s, b);
      if e - b >= 6 then
        assert LabelGap(s, i, p, b) && DigitsAt(s, b, s[b..e]);
        Some(s[b..e])
      else None
    else None
  }

  /** `utr_patterns`, in the order they are tried. */
  const RefPatterns: seq<Matcher<string>> := [MarkerRefAt, TransferRefAt, LongNumberAt, RefLabelAt]

  /** The reference number (UTR): the capture of the first pattern that matches anywhere. */
  function ReferenceOf(txn: string): (r: Option<string>)
    ensures r.Some? ==> |r.value| >= 6 && AllDigits(r.value)
  {
    CaptureIsDigits(txn);
    FirstCapture(txn, RefPatterns)
  }

  /** Whichever pattern decides, its capture is a run of at least six digits. */
  lemma CaptureIsDigits(txn: string)
    ensures var r := FirstCapture(txn, RefPatterns);
      r.Some? ==> |r.value| >= 6 && AllDigits(r.value)
  {
    if FirstCapture(txn, RefPatterns).Some? {
      var k := FirstCaptureFrom(txn, RefPatterns);
      PatternCaptureIsDigits(txn, k);
    }
  }

  lemma PatternCaptureIsDigits(txn: string, k: nat)
    requires k < |RefPatterns| && Leftmost(txn, RefPatterns[k]).Some?
    ensures var c := Leftmost(txn, RefPatterns[k]).value.1; |c| >= 6 && AllDigits(c)
  {
    var i := Leftmost(txn, RefPatterns[k]).value.0;
    var c := Leftmost(txn, RefPatterns[k]).value.1;
    if k == 0 {
      assert MarkerRefAt(txn, i) == Some(c);
    } else if k == 1 {
      assert TransferRefAt(txn, i) == Some(c);
    } else if k == 2 {
      assert LongNumberAt(txn, i) == Some(c);
    } else {
      assert RefLabelAt(txn, i) == Some(c);
    }
  }

  /** What `parse_transaction` returns for the blob `raw`. */
  function Parse(raw: string): Transaction {
    var txn := Normalize(raw);
    var direction := DirectionOf(txn);
    var desc := ExtractDescription(txn);
    Transaction(
      Round2(AmountOf(txn, direction)),
      direction,
      DateOf(txn),
      desc,
      Categorize(desc, direction),
      ReferenceOf(txn))
  }

  /** `t` is printed at `i` in `s` and is followed by a space or the end of the text. */
  predicate PrintedAt(s: string, i: nat, t: string) {
    i + |t| <= |s| && s[i..i + |t|] == t && (i + |t| == |s| || s[i + |t|] == ' ')
  }

  /** Account and amount as a statement prints them: digits, and an amount without thousands separators. */
  predicate IsPrintedTransfer(account: string, whole: string, frac: string) {
    account != [] && AllDigits(account) && whole != [] && AllDigits(whole) && AllDigits(frac)
  }

  /**
   * A transfer narration's tail as a statement prints it: the literal
   * head, the account number, `dashes` dash separators and the amount,
   * single spaces between.
   */
  function TransferText(head: string, account: string, dashes: nat, whole: string, frac: string): string {
    head + " " + account + " " + Dashes(dashes) + AmountText(whole, frac)
  }

  /** A debit narration's tail, "TRANSFER TO 9876543210 - 450.00". */
  function DebitTail(account: string, whole: string, frac: string): string {
    TransferText("TRANSFER TO", account, 1, whole, frac)
  }

  /** A credit narration's tail, "TRANSFER FROM 1234567890 - - 2000.00". */
  function CreditTail(account: string, whole: string, frac: string): string {
    TransferText("TRANSFER FROM", account, 2, whole, frac)
  }

  /** `n` dash separators, "- - ". */
  function Dashes(n: nat): string {
    if n == 0 then [] else "- " + Dashes(n - 1)
  }

  /** `n` printed dash separators "- " from `i` on. */
  predicate DashesFrom(s: string, i: nat, n: nat)
    decreases n
  {
    n == 0 || (i + 1 < |s| && s[i] == '-' && s[i + 1] == ' ' && DashesFrom(s, i + 2, n - 1))
  }

  /** The dash separators `-\s+`, each printed as "- " and followed by the start of the amount at `j`, end at `j`. */
  lemma {:induction false} SeparatorsRead(s: string, i: nat, dashes: nat, j: nat)
    requires j == i + 2 * dashes && j < |s| && IsDigit(s[j])
    requires DashesFrom(s, i, dashes)
    ensures SeparatorsEnd(s, i, dashes) == Some(j)
    decreases dashes
  {
    if dashes > 0 {
      var b := i + 2;
      SeparatorsRead(s, b, dashes - 1, j);
      assert !IsSpace(s[b]);
      OneSpace(s, i + 1);
      assert SpaceEnd(s, i + 1) == b;
    }
  }

  /** The `\s+` before the separators, or before the amount at `j` when there are none, is one space. */
  lemma TailSpace(s: string, c: nat, dashes: nat, j: nat)
    requires j == c + 1 + 2 * dashes && j < |s| && IsDigit(s[j])
    requires s[c] == ' ' && DashesFrom(s, c + 1, dashes)
    ensures SpaceEnd(s, c) == c + 1
  {
    OneSpace(s, c);
  }

  /** A printed amount begins with a digit. */
  lemma AmountStartsWithDigit(s: string, j: nat, whole: string, frac: string)
    requires whole != [] && AllDigits(whole)
    requires PrintedAt(s, j, AmountText(whole, frac))
    ensures j < |s| && IsDigit(s[j])
  {
    assert s[j..j + |AmountText(whole, frac)|][0] == s[j];
  }

  /** `n` dash separators, as text. */
  lemma {:induction false} DashesLength(n: nat)
    ensures |Dashes(n)| == 2 * n
  {
    if n > 0 {
      DashesLength(n - 1);
    }
  }

  /** Printed dash separators, from `i` up to `j`, are read as such. */
  lemma {:induction false} DashesPrinted(s: string, i: nat, n: nat, j: nat)
    requires j == i + 2 * n && j <= |s| && s[i..j] == Dashes(n)
    ensures DashesFrom(s, i, n)
    decreases n
  {
    if n > 0 {
      DashesLength(n - 1);
      var t := s[i..j];
      assert t == "- " + Dashes(n - 1);
      assert s[i] == t[0] && s[i + 1] == t[1];
      assert s[i + 2..j] == t[2..];
      DashesPrinted(s, i + 2, n - 1, j);
    }
  }

  /**
   * The pieces of a printed transfer tail, where they sit: the head from
   * `i` to `h`, a space, the account from `a` to `c`, a space, the
   * separators up to `j`, and the amount from `j`.
   */
  lemma TailShape(s: string, i: nat, head: string, account: string, dashes: nat, whole: string, frac: string,
                  h: nat, a: nat, c: nat, j: nat)
    requires h == i + |head| && a == h + 1 && c == a + |account| && j == c + 1 + 2 * dashes
    requires PrintedAt(s, i, TransferText(head, account, dashes, whole, frac))
    ensures LitAt(s, i, head) && TailPieces(s, h, a, c, account, dashes, whole, frac, j)
  {
    var amount := AmountText(whole, frac);
    var hh := head + " ";
    var bb := hh + account;
    var cc := bb + " ";
    var dd := cc + Dashes(dashes);
    var e := i + |dd + amount|;
    DashesLength(dashes);
    SplitAt(s, i, j, e, dd, amount);
    SplitAt(s, i, c + 1, j, cc, Dashes(dashes));
    SplitAt(s, i, c, c + 1, bb, " ");
    SplitAt(s, i, a, c, hh, account);
    SplitAt(s, i, h, a, head, " ");
    assert s[c] == s[c..c + 1][0];
    assert s[h] == s[h..a][0];
  }

  /** An account number between two spaces: the `\s+` before it and its `\d+` run end where they should. */
  lemma AccountRun(s: string, h: nat, a: nat, c: nat, account: string)
    requires account != [] && AllDigits(account)
    requires a == h + 1 && c == a + |account| && c < |s| && s[a..c] == account && s[h] == ' ' && s[c] == ' '
    ensures IsDigit(s[a]) && SpaceEnd(s, h) == a
    ensures DigitEnd(s, a) == c
  {
    assert forall k :: a <= k < c ==> s[k] == account[k - a];
    assert s[a] == account[0];
    SpanEndIs(s, h, a, IsSpace);
    SpanEndIs(s, a, c, IsDigit);
  }

  /** The tail scanner, step by step: a space run, the account digits, a space run, then the separators. */
  lemma TransferTailEndIs(s: string, h: nat, a: nat, c: nat, dashes: nat, j: nat)
    requires h < a < |s| && IsDigit(s[a]) && SpaceEnd(s, h) == a
    requires DigitEnd(s, a) == c && c < |s| && SpaceEnd(s, c) == c + 1
    requires SeparatorsEnd(s, c + 1, dashes) == Some(j)
    ensures TransferTailEnd(s, h, dashes) == Some(j)
  {
  }

  /** Where the shared tail ends, the amount token is captured. */
  lemma TransferTailIs(s: string, h: nat, dashes: nat, j: nat, v: Decimal)
    requires h <= |s| && TransferTailEnd(s, h, dashes) == Some(j)
    requires NumberAt(s, j).Some? && NumberAt(s, j).value.1 == v
    ensures TransferTailAt(s, h, dashes) == Some(v)
  {
  }

  /**
   * After a printed head, the shared tail of the structural patterns reads
   * the printed amount; the head ends at `h`, the account runs from `a` to
   * `c` and the amount starts at `j`.
   */
  lemma TransferReads(s: string, i: nat, head: string, account: string, dashes: nat, whole: string, frac: string,
                        h: nat, a: nat, c: nat, j: nat)
    requires h == i + |head| && a == h + 1 && c == a + |account| && j == c + 1 + 2 * dashes
    requires IsPrintedTransfer(account, whole, frac)
    requires PrintedAt(s, i, TransferText(head, account, dashes, whole, frac))
    ensures LitAt(s, i, head)
    ensures TransferTailAt(s, h, dashes) == Some(AmountValue(whole, frac))
  {
    TailShape(s, i, head, account, dashes, whole, frac, h, a, c, j);
    TailReads(s, h, a, c, account, dashes, whole, frac, j);
  }

  /**
   * The pieces of a transfer tail after the head that ends at `h`: a
   * space, the account from `a` to `c`, a space, the separators up to `j`
   * and the amount from `j`, each printed at its place.
   */
  predicate TailPieces(s: string, h: nat, a: nat, c: nat, account: string, dashes: nat, whole: string, frac: string, j: nat) {
    && a == h + 1 && c == a + |account| && j == c + 1 + 2 * dashes && j <= |s|
    && s[h] == ' ' && s[a..c] == account && s[c] == ' '
    && s[c + 1..j] == Dashes(dashes) && PrintedAt(s, j, AmountText(whole, frac))
  }

  /**
   * The pieces of a transfer tail, each printed at its place after the head
   * that ends at `h`, are read by the tail scanner as the printed amount.
   */
  lemma TailReads(s: string, h: nat, a: nat, c: nat, account: string, dashes: nat, whole: string, frac: string, j: nat)
    requires IsPrintedTransfer(account, whole, frac) && TailPieces(s, h, a, c, account, dashes, whole, frac, j)
    ensures TransferTailAt(s, h, dashes) == Some(AmountValue(whole, frac))
  {
    TailLayoutOf(s, h, a, c, account, dashes, whole, frac, j);
    AmountTokenAt(s, j, whole, frac);
    TailScan(s, h, a, c, dashes, j, AmountValue(whole, frac));
  }

  /** Printed pieces are laid out as the tail scanner expects. */
  lemma TailLayoutOf(s: string, h: nat, a: nat, c: nat, account: string, dashes: nat, whole: string, frac: string, j: nat)
    requires a == h + 1 && c == a + |account| && j == c + 1 + 2 * dashes && j <= |s|
    requires account != [] && AllDigits(account) && whole != [] && AllDigits(whole)
    requires s[h] == ' ' && s[a..c] == account && s[c] == ' '
    requires s[c + 1..j] == Dashes(dashes) && PrintedAt(s, j, AmountText(whole, frac))
    ensures TailLayout(s, h, a, c, dashes, j)
  {
    AmountStartsWithDigit(s, j, whole, frac);
    AccountRun(s, h, a, c, account);
    DashesPrinted(s, c + 1, dashes, j);
    LayoutFromFacts(s, h, a, c, dashes, j);
  }

  /** The layout, from its facts established one by one. */
  lemma LayoutFromFacts(s: string, h: nat, a: nat, c: nat, dashes: nat, j: nat)
    requires h < a < c < |s| && IsDigit(s[a]) && SpaceEnd(s, h) == a && DigitEnd(s, a) == c
    requires j == c + 1 + 2 * dashes && j < |s| && IsDigit(s[j])
    requires s[c] == ' ' && DashesFrom(s, c + 1, dashes)
    ensures TailLayout(s, h, a, c, dashes, j)
  {
  }

  /** The tail scanner over a laid-out tail whose amount token has value `v`. */
  lemma TailScan(s: string, h: nat, a: nat, c: nat, dashes: nat, j: nat, v: Decimal)
    requires TailLayout(s, h, a, c, dashes, j) && NumberAt(s, j).Some? && NumberAt(s, j).value.1 == v
    ensures h <= |s| && TransferTailAt(s, h, dashes) == Some(v)
  {
    TailAfterAccount(s, h, a, c, dashes, j);
    TransferTailIs(s, h, dashes, j, v);
  }

  /**
   * Where a printed transfer tail's pieces sit after the head that ends at
   * `h`: the space run up to the account at `a`, its digits up to `c`, one
   * space, then `dashes` separators up to the amount's first digit at `j`.
   */
  predicate TailLayout(s: string, h: nat, a: nat, c: nat, dashes: nat, j: nat) {
    && h < a < c < |s| && IsDigit(s[a]) && SpaceEnd(s, h) == a && DigitEnd(s, a) == c
    && j == c + 1 + 2 * dashes && j < |s| && IsDigit(s[j])
    && s[c] == ' ' && DashesFrom(s, c + 1, dashes)
  }

  /** From the account number on: one space and the separators, up to the start of the amount at `j`. */
  lemma TailAfterAccount(s: string, h: nat, a: nat, c: nat, dashes: nat, j: nat)
    requires TailLayout(s, h, a, c, dashes, j)
    ensures h < |s| && TransferTailEnd(s, h, dashes) == Some(j)
  {
    TailSpace(s, c, dashes, j);
    SeparatorsRead(s, c + 1, dashes, j);
    TransferTailEndIs(s, h, a, c, dashes, j);
  }

  /** A literal without lower-case letters found in the text is found in its upper-cased form too. */
  lemma UpperContains(s: string, i: nat, lit: string)
    requires LitAt(s, i, lit) && forall k :: 0 <= k < |lit| ==> !IsLower(lit[k])
    ensures Contains(Upper(s), lit)
  {
    assert Upper(s)[i..i + |lit|] == lit by {
      forall k | 0 <= k < |lit|
        ensures Upper(s)[i + k] == lit[k]
      {
        assert s[i + k] == s[i..i + |lit|][k];
      }
    }
    ContainsAt(Upper(s), lit, i);
  }

  /** "TRANSFER TO" written in capitals is a debit marker. */
  lemma DebitMarkerAt(txn: string, i: nat)
    requires LitAt(txn, i, "TRANSFER TO")
    ensures HasDebitMarker(txn)
  {
    var lit := "TRANSFER TO";
    assert forall k :: 0 <= k < |lit| ==> !IsLower(lit[k]);
    UpperContains(txn, i, lit);
  }

  /** "TRANSFER FROM" written in capitals is a credit marker. */
  lemma CreditMarkerAt(txn: string, i: nat)
    requires LitAt(txn, i, "TRANSFER FROM")
    ensures HasCreditMarker(txn)
  {
    var lit := "TRANSFER FROM";
    assert forall k :: 0 <= k < |lit| ==> !IsLower(lit[k]);
    UpperContains(txn, i, lit);
  }

  /**
   * A debit narration: when the debit pattern's leftmost match is a
   * printed debit tail, the transaction is a debit of exactly the printed
   * amount; earlier "TRANSFER TO"s without an amount tail are passed over.
   */
  lemma DebitAmount(txn: string, i: nat, account: string, whole: string, frac: string)
    requires IsPrintedTransfer(account, whole, frac)
    requires PrintedAt(txn, i, DebitTail(account, whole, frac))
    requires forall j :: 0 <= j < i ==> DebitTransferAt(txn, j).None?
    ensures DirectionOf(txn) == Debit
    ensures AmountOf(txn, Debit) == AmountValue(whole, frac)
  {
    DebitPatternAt(txn, i, account, whole, frac);
    DebitFound(txn, i, AmountValue(whole, frac));
  }

  /** The leftmost match of the debit pattern, capturing `v`, decides the direction and the amount. */
  lemma DebitFound(txn: string, i: nat, v: Decimal)
    requires DebitTransferAt(txn, i) == Some(v)
    requires forall j :: 0 <= j < i ==> DebitTransferAt(txn, j).None?
    ensures DirectionOf(txn) == Debit
    ensures AmountOf(txn, Debit) == v
  {
    assert i <= |txn| && LitAt(txn, i, "TRANSFER TO");
    DebitMarkerAt(txn, i);
    LeftmostIs(txn, DebitTransferAt, i);
  }

  /** The debit pattern matches a printed debit tail and captures its amount. */
  lemma DebitPatternAt(txn: string, i: nat, account: string, whole: string, frac: string)
    requires IsPrintedTransfer(account, whole, frac)
    requires PrintedAt(txn, i, DebitTail(account, whole, frac))
    ensures i <= |txn| && LitAt(txn, i, "TRANSFER TO")
    ensures DebitTransferAt(txn, i) == Some(AmountValue(whole, frac))
  {
    var c := i + 12 + |account|;
    TransferReads(txn, i, "TRANSFER TO", account, 1, whole, frac, i + 11, i + 12, c, c + 3);
  }

  /**
   * A credit narration: with no debit marker, when the credit pattern's
   * leftmost match is a printed credit tail, the transaction is a credit
   * of exactly the printed amount.
   */
  lemma CreditAmount(txn: string, i: nat, account: string, whole: string, frac: string)
    requires IsPrintedTransfer(account, whole, frac)
    requires PrintedAt(txn, i, CreditTail(account, whole, frac))
    requires forall j :: 0 <= j < i ==> CreditTransferAt(txn, j).None?
    requires !HasDebitMarker(txn)
    ensures DirectionOf(txn) == Credit
    ensures AmountOf(txn, Credit) == AmountValue(whole, frac)
  {
    CreditPatternAt(txn, i, account, whole, frac);
    CreditFound(txn, i, AmountValue(whole, frac));
  }

  /** With no debit marker, the leftmost match of the credit pattern, capturing `v`, decides the direction and the amount. */
  lemma CreditFound(txn: string, i: nat, v: Decimal)
    requires CreditTransferAt(txn, i) == Some(v)
    requires forall j :: 0 <= j < i ==> CreditTransferAt(txn, j).None?
    requires !HasDebitMarker(txn)
    ensures DirectionOf(txn) == Credit
    ensures AmountOf(txn, Credit) == v
  {
    assert i <= |txn| && LitAt(txn, i, "TRANSFER FROM");
    CreditMarkerAt(txn, i);
    LeftmostIs(txn, CreditTransferAt, i);
  }

  /** The credit pattern matches a printed credit tail and captures its amount. */
  lemma CreditPatternAt(txn: string, i: nat, account: string, whole: string, frac: string)
    requires IsPrintedTransfer(account, whole, frac)
    requires PrintedAt(txn, i, CreditTail(account, whole, frac))
    ensures i <= |txn| && LitAt(txn, i, "TRANSFER FROM")
    ensures CreditTransferAt(txn, i) == Some(AmountValue(whole, frac))
  {
    var c := i + 14 + |account|;
    TransferReads(txn, i, "TRANSFER FROM", account, 2, whole, frac, i + 13, i + 14, c, c + 5);
  }

  /**
   * A blob whose normalised text carries a printed debit tail, where the
   * debit pattern first matches, is parsed as a debit of the printed
   * amount, kept to the cent when it has at most two decimals.
   */
  lemma ParseDebit(raw: string, i: nat, account: string, whole: string, frac: string)
    requires IsPrintedTransfer(account, whole, frac) && |frac| <= 2
    requires PrintedAt(Normalize(raw), i, DebitTail(account, whole, frac))
    requires forall j :: 0 <= j < i ==> DebitTransferAt(Normalize(raw), j).None?
    ensures Parse(raw).direction == Debit
    ensures Parse(raw).amount * Pow10(|frac|) == 100 * DigitsValue(whole + frac)
  {
    DebitAmount(Normalize(raw), i, account, whole, frac);
  }

  /**
   * A blob whose normalised text has no debit marker and carries a printed
   * credit tail, where the credit pattern first matches, is parsed as
   * income of the printed amount.
   */
  lemma ParseCredit(raw: string, i: nat, account: string, whole: string, frac: string)
    requires IsPrintedTransfer(account, whole, frac) && |frac| <= 2
    requires PrintedAt(Normalize(raw), i, CreditTail(account, whole, frac))
    requires forall j :: 0 <= j < i ==> CreditTransferAt(Normalize(raw), j).None?
    requires !HasDebitMarker(Normalize(raw))
    ensures Parse(raw).direction == Credit && Parse(raw).category == IncomeLabel
    ensures Parse(raw).amount * Pow10(|frac|) == 100 * DigitsValue(whole + frac)
  {
    CreditAmount(Normalize(raw), i, account, whole, frac);
  }

  /**
   * The reference patterns are tried in order: a "/CR/" or "/DR/" marker
   * followed by six or more digits supplies the reference whatever else
   * the text holds, and the leftmost such marker wins.
   */
  lemma MarkerReferenceFirst(txn: string)
    requires Leftmost(txn, MarkerRefAt).Some?
    ensures ReferenceOf(txn) == Some(Leftmost(txn, MarkerRefAt).value.1)
  {
    FirstCaptureIs(txn, RefPatterns, 0);
  }

  /** The reference of a narration is its marker's digits, when the prefix has no marker and there are six or more. */
  lemma ReferenceOfNarration(prefix: string, tag: string, reference: string, name: string, rest: string)
    requires NoSlash(prefix) && (tag == "CR" || tag == "DR")
    requires |reference| >= 6 && AllDigits(reference)
    ensures ReferenceOf(Narration(prefix, tag, reference, name, rest)) == Some(reference)
  {
    var s := Narration(prefix, tag, reference, name, rest);
    var i := |prefix|;
    NarrationMarkerRef(prefix, tag, reference, name, rest);
    forall j | 0 <= j < i
      ensures MarkerRefAt(s, j).None?
    {
      assert s[j] == prefix[j];
    }
    LeftmostIs(s, MarkerRefAt, i);
    MarkerReferenceFirst(s);
  }

  /** At a narration's marker, the first reference pattern captures the marker's digits. */
  lemma NarrationMarkerRef(prefix: string, tag: string, reference: string, name: string, rest: string)
    requires (tag == "CR" || tag == "DR") && |reference| >= 6 && AllDigits(reference)
    ensures MarkerRefAt(Narration(prefix, tag, reference, name, rest), |prefix|) == Some(reference)
  {
    var s := Narration(prefix, tag, reference, name, rest);
    var i := |prefix|;
    var d := i + 4 + |reference|;
    assert IsMarker(tag, reference);
    NarrationShape(prefix, tag, reference, name, rest);
    assert LitAt(s, i, "/" + tag + "/");
    SpanEndIs(s, i + 4, d, IsDigit);
    assert s[i + 4..d] == reference;
  }

  /**
   * A statement date at the head of a blob, followed by a space or
   * nothing, supplies the first two numeric tokens: its day and its year.
   */
  lemma DateLedTokens(d: Date, rest: string)
    requires ValidDate(d) && d.year <= 9999
    requires rest == [] || rest[0] == ' '
    ensures Tokens(StatementDate(d) + rest) == [Decimal(d.day, 0), Decimal(d.year, 0)] + TokensFrom(StatementDate(d) + rest, 11)
  {
    DateDayToken(d, rest);
    DateYearToken(d, rest);
    StatementDateText(d, rest);
    TwoLeadingTokens(StatementDate(d) + rest, Decimal(d.day, 0), Decimal(d.year, 0));
  }

  /** Two tokens at positions 0 and 7 with no digit between them are the first two tokens. */
  lemma TwoLeadingTokens(s: string, day: Decimal, year: Decimal)
    requires NumberAt(s, 0) == Some((2, day)) && NumberAt(s, 7) == Some((11, year))
    requires forall k :: 2 <= k < 7 ==> !IsDigit(s[k])
    ensures Tokens(s) == [day, year] + TokensFrom(s, 11)
  {
    TokensSkip(s, 2, 7);
    TokenStep(s, 0, 2, day);
    TokenStep(s, 7, 11, year);
    assert [day] + ([year] + TokensFrom(s, 11)) == [day, year] + TokensFrom(s, 11);
  }

  /** The day of a printed statement date is a token of its own. */
  lemma DateDayToken(d: Date, rest: string)
    requires ValidDate(d) && d.year <= 9999
    ensures NumberAt(StatementDate(d) + rest, 0) == Some((2, Decimal(d.day, 0)))
  {
    var s := StatementDate(d) + rest;
    StatementDateText(d, rest);
    DigitRunToken(s, 0, 2);
    StatementDateDay(d, rest);
  }

  /** The year of a printed statement date, followed by a space or nothing, is a token of its own. */
  lemma DateYearToken(d: Date, rest: string)
    requires ValidDate(d) && d.year <= 9999
    requires rest == [] || rest[0] == ' '
    ensures NumberAt(StatementDate(d) + rest, 7) == Some((11, Decimal(d.year, 0)))
  {
    var s := StatementDate(d) + rest;
    StatementDateText(d, rest);
    assert rest != [] ==> s[11] == rest[0];
    DigitRunToken(s, 7, 11);
    StatementDateYear(d, rest);
  }

  /**
   * The positional fallback reads the statement date: for a blob that
   * begins with its date, it yields the day when no other number follows,
   * and the year otherwise.
   */
  lemma FallbackReadsDate(d: Date, rest: string)
    requires ValidDate(d) && d.year <= 9999
    requires rest == [] || rest[0] == ' '
    ensures var s := StatementDate(d) + rest;
      FallbackAmount(Tokens(s)) == if TokensFrom(s, 11) == [] then Decimal(d.day, 0) else Decimal(d.year, 0)
  {
    DateLedTokens(d, rest);
  }

  /**
   * `parse_transaction` as written: the amount and direction are set
   * through the debit/credit branches, the reference by a loop over the
   * patterns that stops at the first match.
   */
  method ParseTransaction(raw: string) returns (t: Transaction)
    ensures t == Parse(raw)
    ensures t.direction == Debit <==> HasDebitMarker(Normalize(raw))
    ensures t.direction == Credit <==> !HasDebitMarker(Normalize(raw)) && HasCreditMarker(Normalize(raw))
    ensures t.direction == Unknown ==> t.amount == 0
    ensures t.direction == Credit ==> t.category == IncomeLabel
    ensures t.reference.Some? ==> |t.reference.value| >= 6 && AllDigits(t.reference.value)
  {
    var txn := Normalize(raw);
    var date := DateOf(txn);
    var direction, amount := DirectionAndAmount(txn);
    var reference := FindReference(txn);
    var desc := ExtractDescription(txn);
    t := Transaction(Round2(amount), direction, date, desc, Categorize(desc, direction), reference);
  }

  /** The direction branches of `parse_transaction`, with the amount each sets. */
  method DirectionAndAmount(txn: string) returns (direction: Direction, amount: Decimal)
    ensures direction == DirectionOf(txn) && amount == AmountOf(txn, direction)
    ensures direction == Unknown ==> amount == Zero
  {
    var nums := Tokens(txn);
    amount := Zero;
    direction := Unknown;
    var upper := Upper(txn);
    if Contains(upper, "TRANSFER TO") || Contains(upper, "/DR/") {
      direction := Debit;
      var m := Leftmost(txn, DebitTransferAt);
      if m.Some? {
        amount := m.value.1;
      } else if |nums| >= 2 {
        if |nums| == 2 {
          amount := nums[0];
        } else if |nums| >= 3 {
          amount := nums[1];
        }
      }
    } else if Contains(upper, "TRANSFER FROM") || Contains(upper, "/CR/") {
      direction := Credit;
      var m := Leftmost(txn, CreditTransferAt);
      if m.Some? {
        amount := m.value.1;
      } else if |nums| >= 2 {
        if |nums| == 2 {
          amount := nums[0];
        } else if |nums| >= 3 {
          amount := nums[1];
        }
      }
    }
  }

  /** The reference loop of `parse_transaction`: the patterns in order, stopping at the first match. */
  method FindReference(txn: string) returns (reference: Option<string>)
    ensures reference == ReferenceOf(txn)
    ensures reference.Some? ==> |reference.value| >= 6 && AllDigits(reference.value)
  {
    reference := None;
    for k := 0 to |RefPatterns|
      invariant reference.None? && NoneBefore(txn, RefPatterns, k)
    {
      var m := Leftmost(txn, RefPatterns[k]);
      if m.Some? {
        reference := Some(m.value.1);
        FirstCaptureIs(txn, RefPatterns, k);
        break;
      }
      NoneBeforeStep(txn, RefPatterns, k);
    }
    if reference.None? {
      NoneBeforeAll(txn, RefPatterns);
    }
  }
}
