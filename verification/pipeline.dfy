/**
 * The upload handler's text pipeline (`parse_pdf` after the PDF has been
 * read): clean the statement lines, group them into transaction blobs,
 * parse every blob, and keep the records whose rounded amount is positive.
 */
module Pipeline {
  import opened Seqs
  import opened Cleaning
  import opened Grouping
  import opened Categories
  import opened Transactions

  /** `parse_transaction` on every blob, in order. */
  function ParseAll(blobs: seq<string>): (r: seq<Transaction>)
    ensures |r| == |blobs| && forall j :: 0 <= j < |blobs| ==> r[j] == Parse(blobs[j])
  {
    seq(|blobs|, j requires 0 <= j < |blobs| => Parse(blobs[j]))
  }

  /** The filter `parsed["amount"] > 0`: every record it keeps has a positive amount. */
  function KeepPositive(ts: seq<Transaction>): (r: seq<Transaction>)
    ensures forall j :: 0 <= j < |r| ==> r[j].amount > 0
  {
    if ts == [] then []
    else if ts[0].amount > 0 then [ts[0]] + KeepPositive(ts[1..])
    else KeepPositive(ts[1..])
  }

  /**
   * The filter only drops records: those it keeps come in their original
   * order, and every record with a positive amount is kept.
   */
  lemma {:induction false} KeepPositiveSubseq(ts: seq<Transaction>)
    ensures IsSubseq(KeepPositive(ts), ts)
    ensures forall t :: t in ts && t.amount > 0 ==> t in KeepPositive(ts)
  {
    if ts != [] {
      KeepPositiveSubseq(ts[1..]);
      var r := KeepPositive(ts);
      if ts[0].amount > 0 {
        assert r[0] == ts[0] && r[1..] == KeepPositive(ts[1..]);
      }
      assert forall t :: t in ts ==> t == ts[0] || t in ts[1..];
    }
  }

  /** The transactions the handler returns for the text lines of a statement. */
  function Statement(lines: seq<string>): seq<Transaction> {
    KeepPositive(ParseAll(Blobs(Clean(lines))))
  }

  /** The handler's pipeline as written: the cleaning loops, the grouper, then the parse-and-filter loop. */
  method ParsePdfLines(lines: seq<string>) returns (result: seq<Transaction>)
    ensures result == Statement(lines)
    ensures forall j :: 0 <= j < |result| ==> result[j].amount > 0
    ensures forall j :: 0 <= j < |result| ==> result[j].direction == Credit ==> result[j].category == IncomeLabel
  {
    var clean := CleanLines(lines);
    var grouped := GroupTransactions(clean);
    result := ParseAndFilter(grouped);
  }

  /** The loop over the blobs: parse each one and keep it when its rounded amount is positive. */
  method ParseAndFilter(grouped: seq<string>) returns (result: seq<Transaction>)
    ensures result == KeepPositive(ParseAll(grouped))
    ensures forall j :: 0 <= j < |result| ==> result[j].direction == Credit ==> result[j].category == IncomeLabel
  {
    ghost var parsedAll := ParseAll(grouped);
    result := [];
    for k := 0 to |grouped|
      invariant result + KeepPositive(parsedAll[k..]) == KeepPositive(parsedAll)
    {
      var parsed := ParseTransaction(grouped[k]);
      KeepPositiveStep(parsedAll, k);
      if parsed.amount > 0 {
        AppendAssoc(result, [parsed], KeepPositive(parsedAll[k + 1..]));
        result := result + [parsed];
      }
    }
    assert parsedAll[|grouped|..] == [];
    CreditsAreIncome(grouped);
  }

  /** Among the records kept, every credit is filed as income. */
  lemma CreditsAreIncome(blobs: seq<string>)
    ensures forall t :: t in KeepPositive(ParseAll(blobs)) ==> t.direction == Credit ==> t.category == IncomeLabel
  {
    var ts := ParseAll(blobs);
    KeepPositiveSubseq(ts);
    SubseqElements(KeepPositive(ts), ts);
  }

  /** One step of the filter, at position `k`. */
  lemma KeepPositiveStep(ts: seq<Transaction>, k: nat)
    requires k < |ts|
    ensures KeepPositive(ts[k..]) == (if ts[k].amount > 0 then [ts[k]] else []) + KeepPositive(ts[k + 1..])
  {
    assert ts[k..][0] == ts[k] && ts[k..][1..] == ts[k + 1..];
  }

  /** Every returned record is the parse of one of the blobs the grouper built from the cleaned lines, in order. */
  lemma StatementFromBlobs(lines: seq<string>)
    ensures IsSubseq(Statement(lines), ParseAll(Blobs(Clean(lines))))
    ensures forall t :: t in Statement(lines) ==> t in ParseAll(Blobs(Clean(lines)))
  {
    var ts := ParseAll(Blobs(Clean(lines)));
    KeepPositiveSubseq(ts);
    SubseqElements(Statement(lines), ts);
  }

  /** Conversely, every blob whose parse has a positive rounded amount is reported. */
  lemma StatementComplete(lines: seq<string>, j: nat)
    requires j < |Blobs(Clean(lines))| && Parse(Blobs(Clean(lines))[j]).amount > 0
    ensures Parse(Blobs(Clean(lines))[j]) in Statement(lines)
  {
    var ts := ParseAll(Blobs(Clean(lines)));
    KeepPositiveSubseq(ts);
    assert ts[j] in ts;
  }

  /** Lines before the first column header never affect the result. */
  lemma StatementIgnoresPreamble(preamble: seq<string>, rest: seq<string>)
    requires forall k :: 0 <= k < |preamble| ==> !IsHeaderLine(preamble[k])
    requires rest != [] && IsHeaderLine(rest[0])
    ensures Statement(preamble + rest) == Statement(rest)
  {
    PreambleIgnored(preamble, rest);
  }

  /** Nothing from the first footer line of the body on affects the result. */
  lemma StatementStopsAtFooter(lines: seq<string>, j: nat)
    requires BodyStart(lines) <= j < |lines| && Stops(lines[j])
    ensures Statement(lines) == Statement(lines[..j])
  {
    CleanStopsAtFooter(lines, j);
  }
}
