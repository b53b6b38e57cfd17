/**
 * The Description Extractor (`extract_description`): the counterparty
 * name of a UPI narration such as "UPI/DR/412345678901/SWIGGY/YESB/..."
 * is the text between the reference number's closing slash and the next
 * slash. Three patterns are tried in order, all ignoring case; the capture
 * is stripped; "Unknown" when none matches.
 */
module Description {
  import opened Wrappers
  import opened Text
  import opened Search

  predicate NotSlash(c: char) { c != '/' }

  predicate NoSlash(s: string) {
    forall k :: 0 <= k < |s| ==> s[k] != '/'
  }

  /**
   * `/(?:CR|DR)/\d+/([^/]+)` under `re.I`, tried at `i`: the bounds of its
   * capture. The digit run must stop at the slash, and the capture runs to
   * the next slash or the end of the text.
   */
  function CrDrAt(s: string, i: nat): (r: Option<(nat, nat)>)
    ensures r.Some? ==> i + 5 < r.value.0 < r.value.1 <= |s|
    ensures r.Some? ==> s[i] == '/' && (CiLitAt(s, i + 1, "cr") || CiLitAt(s, i + 1, "dr")) && s[i + 3] == '/'
    ensures r.Some? ==> forall k :: i + 4 <= k < r.value.0 - 1 ==> IsDigit(s[k])
    ensures r.Some? ==> NoSlash(s[r.value.0..r.value.1])
    ensures r.Some? ==> s[r.value.0 - 1] == '/' && (r.value.1 == |s| || s[r.value.1] == '/')
  {
    if LitAt(s, i, "/") && (CiLitAt(s, i + 1, "cr") || CiLitAt(s, i + 1, "dr")) && LitAt(s, i + 3, "/")
      && i + 4 < |s| && IsDigit(s[i + 4])
    then
      var d := DigitEnd(s, i + 4);
      if LitAt(s, d, "/") then
        var e := SpanEnd(s, d + 1, NotSlash);
        if d + 1 < e then Some((d + 1, e)) else None
      else None
    else None
  }

  /** The first pattern, `/(?:CR|DR)/\d+/([^/]+)`: its capture is a non-empty run without a slash. */
  function SegmentAt(s: string, i: nat): (r: Option<string>)
    ensures r.Some? ==> r.value != [] && NoSlash(r.value)
    ensures r.Some? <==> CrDrAt(s, i).Some?
    ensures r.Some? ==> r.value == s[CrDrAt(s, i).value.0..CrDrAt(s, i).value.1]
  {
    match CrDrAt(s, i)
    case Some((a, e)) => Some(s[a..e])
    case None => None
  }

  /** The second pattern, `UPI/(?:CR|DR)/\d+/([^/]+)`: the first one preceded by "UPI". */
  function UpiSegmentAt(s: string, i: nat): (r: Option<string>)
    ensures r.Some? ==> r == SegmentAt(s, i + 3)
  {
    if CiLitAt(s, i, "upi") then SegmentAt(s, i + 3) else None
  }

  /**
   * `TRANSFER (?:FROM|TO)\s+\d+\s+` under `re.I` at `i`, followed by "UPI":
   * where the third pattern's first group begins.
   */
  function TransferUpiStart(s: string, i: nat): (r: Option<nat>)
    ensures r.Some? ==> i < r.value && CiLitAt(s, r.value, "upi")
  {
    if CiLitAt(s, i, "transfer ") then
      var w := if CiLitAt(s, i + 9, "from") then i + 13 else if CiLitAt(s, i + 9, "to") then i + 11 else 0;
      if w == 0 then None
      else
        var a := SpaceEnd(s, w);
        if w < a && a < |s| && IsDigit(s[a]) then
          var c := DigitEnd(s, a);
          var b := SpaceEnd(s, c);
          if c < b && CiLitAt(s, b, "upi") then Some(b) else None
        else None
    else None
  }

  /**
   * The third pattern, `TRANSFER (?:FROM|TO)\s+\d+\s+(UPI/(?:CR|DR)/\d+/([^/]+))`:
   * its first group is the whole UPI narration that follows the account number.
   */
  function TransferUpiAt(s: string, i: nat): (r: Option<string>)
    ensures r.Some? ==> exists b: nat :: i < b && b + 3 < |s| && CiLitAt(s, b, "upi") && SegmentAt(s, b + 3).Some?
  {
    match TransferUpiStart(s, i)
    case None => None
    case Some(b) => UpiGroupAt(s, b)
  }

  /**
   * The group `(UPI/(?:CR|DR)/\d+/([^/]+))` at `b`, where "UPI" has been
   * seen: it extends to the end of the first pattern's capture after it.
   */
  function UpiGroupAt(s: string, b: nat): (r: Option<string>)
    ensures r.Some? ==> b + 3 < |s| && SegmentAt(s, b + 3).Some?
  {
    match CrDrAt(s, b + 3)
    case Some((_, e)) => Some(s[b..e])
    case None => None
  }

  /** The description patterns, in the order they are tried. */
  const DescPatterns: seq<Matcher<string>> := [SegmentAt, UpiSegmentAt, TransferUpiAt]

  /** `/([^/]+)$`: a slash followed by a slash-free run reaching the end of the text. */
  function LastSegmentAt(s: string, i: nat): (r: Option<string>)
    ensures r.Some? ==> i < |s| && s[i] == '/' && r.value == s[i + 1..] && r.value != [] && NoSlash(r.value)
  {
    if LitAt(s, i, "/") && i + 1 < |s| && SpanEnd(s, i + 1, NotSlash) == |s| then Some(s[i + 1..]) else None
  }

  /**
   * `extract_description`. A capture holding "UPI/" is cut down to its
   * last slash-separated segment before stripping.
   */
  function ExtractDescription(txn: string): (desc: string)
  {
    match FirstCapture(txn, DescPatterns)
    case None => "Unknown"
    case Some(capture) =>
      if Contains(capture, "UPI/") then
        match Leftmost(capture, LastSegmentAt)
        case Some((_, name)) => Strip(name)
        case None => Strip(capture)
      else Strip(capture)
  }

  /** Where the second pattern matches, the first matches too, with the same capture. */
  lemma UpiSegmentDominated(s: string)
    requires Leftmost(s, UpiSegmentAt).Some?
    ensures Leftmost(s, SegmentAt).Some?
  {
    var i := Leftmost(s, UpiSegmentAt).value.0;
    MatchFound(s, SegmentAt, i + 3);
  }

  /** Where the third pattern matches, the first matches too, inside its UPI group. */
  lemma TransferUpiDominated(s: string, i: nat)
    requires TransferUpiAt(s, i).Some?
    ensures Leftmost(s, SegmentAt).Some?
  {
    UpiGroupDominated(s, TransferUpiStart(s, i).value);
  }

  /** Where a UPI group is at `b`, the first pattern matches just after its "UPI". */
  lemma UpiGroupSegment(s: string, b: nat)
    requires UpiGroupAt(s, b).Some?
    ensures b + 3 <= |s| && SegmentAt(s, b + 3).Some?
  {
  }

  /** Where the third pattern's UPI group is, the first pattern matches too. */
  lemma UpiGroupDominated(s: string, b: nat)
    requires UpiGroupAt(s, b).Some?
    ensures Leftmost(s, SegmentAt).Some?
  {
    UpiGroupSegment(s, b);
    MatchFound(s, SegmentAt, b + 3);
  }

  /**
   * The first pattern decides: the second and third only ever match where
   * the first does, so the description comes from the first pattern's
   * leftmost match or is "Unknown".
   */
  lemma FirstPatternDecides(txn: string)
    ensures FirstCapture(txn, DescPatterns) == (match Leftmost(txn, SegmentAt)
                                                case Some((_, c)) => Some(c)
                                                case None => None)
  {
    if Leftmost(txn, SegmentAt).Some? {
      FirstCaptureIs(txn, DescPatterns, 0);
    } else {
      if Leftmost(txn, UpiSegmentAt).Some? {
        UpiSegmentDominated(txn);
      }
      if Leftmost(txn, TransferUpiAt).Some? {
        var i := Leftmost(txn, TransferUpiAt).value.0;
        TransferUpiDominated(txn, i);
      }
    }
  }

  lemma {:induction false} NoSlashNoUpi(s: string)
    requires NoSlash(s)
    ensures !Contains(s, "UPI/")
    decreases |s|
  {
    if s != [] {
      NoSlashNoUpi(s[1..]);
    }
    if |s| >= 4 {
      assert s[..4][3] != "UPI/"[3];
    }
  }

  /**
   * What `extract_description` returns: "Unknown" when no "/CR/<digits>/" or
   * "/DR/<digits>/" is followed by a name, and otherwise the stripped text
   * between the leftmost such marker and the next slash. The "UPI/"
   * refinement never applies, since that text holds no slash.
   */
  lemma DescriptionIs(txn: string)
    ensures Leftmost(txn, SegmentAt).None? ==> ExtractDescription(txn) == "Unknown"
    ensures Leftmost(txn, SegmentAt).Some? ==> ExtractDescription(txn) == Strip(Leftmost(txn, SegmentAt).value.1)
  {
    FirstPatternDecides(txn);
    if Leftmost(txn, SegmentAt).Some? {
      NoSlashNoUpi(Leftmost(txn, SegmentAt).value.1);
    }
  }

  lemma StripNoSlash(s: string)
    requires NoSlash(s)
    ensures NoSlash(Strip(s))
  {
    var a := SpanEnd(s, 0, IsSpace);
    var b := TrimEndFrom(s, a);
    assert Strip(s) == s[a..b];
  }

  /** A description never contains a slash: it is a single segment of the narration. */
  lemma DescriptionHasNoSlash(txn: string)
    ensures NoSlash(ExtractDescription(txn))
  {
    DescriptionIs(txn);
    if Leftmost(txn, SegmentAt).Some? {
      StripNoSlash(Leftmost(txn, SegmentAt).value.1);
    }
  }

  /** The marker "/<tag>/<ref>/" ("/DR/412345678901/") as a narration writes it. */
  predicate IsMarker(tag: string, reference: string) {
    |tag| == 2 && (Lower(tag) == "cr" || Lower(tag) == "dr") && reference != [] && AllDigits(reference)
  }

  /** The narration text "<prefix>/<tag>/<ref>/<name><rest>". */
  function Narration(prefix: string, tag: string, reference: string, name: string, rest: string): string {
    prefix + "/" + tag + "/" + reference + "/" + name + rest
  }

  /** The pieces of a narration, where they sit. */
  lemma NarrationShape(prefix: string, tag: string, reference: string, name: string, rest: string)
    requires IsMarker(tag, reference)
    ensures var s, i := Narration(prefix, tag, reference, name, rest), |prefix|;
      var d := i + 4 + |reference|;
      && |s| == d + 1 + |name| + |rest|
      && s[i] == '/' && s[i + 1..i + 3] == tag && s[i + 3] == '/' && s[d] == '/'
      && (forall k :: i + 4 <= k < d ==> s[k] == reference[k - i - 4])
      && (forall k :: d + 1 <= k < d + 1 + |name| ==> s[k] == name[k - d - 1])
      && s[d + 1..d + 1 + |name|] == name
      && (rest != [] ==> s[d + 1 + |name|] == rest[0])
  {
  }

  /** The first pattern matches a narration right at its marker, capturing the name. */
  lemma NarrationSegment(prefix: string, tag: string, reference: string, name: string, rest: string)
    requires IsMarker(tag, reference)
    requires name != [] && NoSlash(name)
    requires rest == [] || rest[0] == '/'
    ensures SegmentAt(Narration(prefix, tag, reference, name, rest), |prefix|) == Some(name)
  {
    var s := Narration(prefix, tag, reference, name, rest);
    var i := |prefix|;
    var d := i + 4 + |reference|;
    NarrationShape(prefix, tag, reference, name, rest);
    MarkerRead(s, i, tag, reference, name, d, d + 1 + |name|);
  }

  /**
   * A marker "/<tag>/<ref>/" printed from `i`, with its last slash at `d`,
   * followed by a name that runs up to `e`, where a slash or the end of
   * the text is: the first pattern matches at `i` and captures the name.
   */
  lemma MarkerRead(s: string, i: nat, tag: string, reference: string, name: string, d: nat, e: nat)
    requires IsMarker(tag, reference) && name != [] && NoSlash(name)
    requires d == i + 4 + |reference| && e == d + 1 + |name| && e <= |s|
    requires s[i] == '/' && s[i + 1..i + 3] == tag && s[i + 3] == '/' && s[d] == '/'
    requires forall k :: i + 4 <= k < d ==> s[k] == reference[k - i - 4]
    requires forall k :: d + 1 <= k < e ==> s[k] == name[k - d - 1]
    requires s[d + 1..e] == name && (e == |s| || s[e] == '/')
    ensures SegmentAt(s, i) == Some(name)
  {
    assert LitAt(s, i, "/") && LitAt(s, i + 3, "/") && LitAt(s, d, "/");
    SpanEndIs(s, i + 4, d, IsDigit);
    SpanEndIs(s, d + 1, e, NotSlash);
  }

  /** The first pattern cannot match where there is no slash. */
  lemma NoMarkerWithoutSlash(s: string, j: nat)
    requires j < |s| && s[j] != '/'
    ensures CrDrAt(s, j).None? && SegmentAt(s, j).None?
  {
    assert s[j..j + 1][0] == s[j];
  }

  /**
   * A narration whose prefix has no slash yields exactly its (trimmed)
   * name: the description the statement's narration was written with.
   */
  lemma DescriptionOfNarration(prefix: string, tag: string, reference: string, name: string, rest: string)
    requires NoSlash(prefix) && IsMarker(tag, reference)
    requires name != [] && NoSlash(name) && IsTrimmed(name)
    requires rest == [] || rest[0] == '/'
    ensures ExtractDescription(Narration(prefix, tag, reference, name, rest)) == name
  {
    var s := Narration(prefix, tag, reference, name, rest);
    var i := |prefix|;
    NarrationSegment(prefix, tag, reference, name, rest);
    forall j | 0 <= j < i
      ensures SegmentAt(s, j).None?
    {
      assert s[j] == prefix[j];
      NoMarkerWithoutSlash(s, j);
    }
    LeftmostIs(s, SegmentAt, i);
    DescriptionIs(s);
    StripTrimmed(name);
  }
}
