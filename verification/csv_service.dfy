/** The upload service's handling of a parsed CSV file
    (frontend/src/services/csvService.ts): the header normalisation it hands
    to the parser, the per-record coerce-and-validate loop of the `complete`
    callback, and the `error` callback. Tokenising the file is the parser
    library's business and is represented by its outcome. */
module CsvService {
  import opened Results
  import opened ClaimSchema
  import JsText

  /** `transformHeader`: lower-case, trim, then replace every whitespace run
      by one underscore. */
  function NormalizeHeader(h: string): (r: string)
    ensures JsText.NoWhitespace(r)
    ensures |r| <= |h|
  {
    JsText.CollapseWhitespace(JsText.Trim(JsText.Lower(h)))
  }

  /** The normalised header is the lower-cased header's words joined by
      underscores. */
  lemma NormalizeHeaderJoinsWords(h: string)
    ensures NormalizeHeader(h) == JsText.Join(JsText.Words(JsText.Lower(h)), "_")
  {
    var l := JsText.Lower(h);
    JsText.CollapseTrimmedIsJoin(JsText.Trim(l));
    JsText.WordsOfTrim(l);
  }

  /** Normalising a normalised header changes nothing. */
  lemma NormalizeHeaderIdempotent(h: string)
    ensures NormalizeHeader(NormalizeHeader(h)) == NormalizeHeader(h)
  {
    var l := JsText.Lower(h);
    var t := JsText.Trim(l);
    var r := NormalizeHeader(h);
    JsText.LowerHasNoUpper(h);
    JsText.TrimKeepsNoUpper(l);
    JsText.CollapseKeepsNoUpper(t);
    JsText.LowerOfNoUpper(r);
    JsText.TrimAndCollapseOfNoWhitespace(r);
  }

  /** What the upload service resolves with. */
  datatype ParseResult = ParseResult(data: seq<Claim>, errors: seq<string>)

  /** What the parser library reports: the records of the file, or the
      message of the error that stopped it. */
  datatype ParserOutcome = Records(rows: seq<Row>) | ParserError(message: string)

  function Messages(issues: seq<Issue>): (ms: seq<string>)
    ensures |ms| == |issues|
  {
    seq(|issues|, i requires 0 <= i < |issues| => Message(issues[i]))
  }

  /** The row number an error text names, read back from its "Row <n>: "
      prefix. */
  function ErrorLine(e: string): Option<nat> {
    if |e| >= 4 && e[..4] == "Row " && JsText.TakeDigits(e[4..]) != [] then
      Some(JsText.DecimalValue(JsText.TakeDigits(e[4..])))
    else
      None
  }

  /** The error text of the rejected record at 0-based position `index`
      among the parsed records: it names row `index + 2`. That is the
      record's line in the file only when no blank line was skipped before
      it and no quoted cell before it spans lines. */
  function RowError(index: nat, issues: seq<Issue>): (e: string)
    ensures |e| >= 4 && e[..4] == "Row "
    ensures ErrorLine(e) == Some(index + 2)
  {
    var d := JsText.DecimalString(index + 2);
    var tail := ": " + JsText.Join(Messages(issues), ", ");
    var e := "Row " + (d + tail);
    assert e[4..] == d + tail;
    JsText.TakeDigitsAppend(d, tail);
    JsText.DecimalRoundTrip(index + 2);
    e
  }

  /** An error text is "Row ", the row number in decimal, ": " and the
      messages of the issues joined by ", ". */
  lemma RowErrorShape(index: nat, issues: seq<Issue>)
    ensures RowError(index, issues)[4..]
         == JsText.DecimalString(index + 2) + (": " + JsText.Join(Messages(issues), ", "))
  {
  }

  /** The schema's verdict on one record. */
  type Verdict = Result<Claim, seq<Issue>>

  /** The verdicts on every record, in input order. */
  function Verdicts(rows: seq<Row>, parseNum: string -> Number): seq<Verdict> {
    seq(|rows|, i requires 0 <= i < |rows| => ValidateRow(rows[i], parseNum))
  }

  /** The claims of the accepted records, in input order. */
  function AcceptedClaims(vs: seq<Verdict>): seq<Claim> {
    if vs == [] then []
    else
      var last := vs[|vs| - 1];
      AcceptedClaims(vs[..|vs| - 1]) + (if last.Ok? then [last.value] else [])
  }

  /** The error texts of the rejected records, in input order, each naming
      the record's position. */
  function RowErrors(vs: seq<Verdict>): seq<string> {
    if vs == [] then []
    else
      var last := vs[|vs| - 1];
      RowErrors(vs[..|vs| - 1]) + (if last.Err? then [RowError(|vs| - 1, last.error)] else [])
  }

  /** Extending the prefix by one verdict extends each list by what that
      verdict contributes. */
  lemma ReferenceStep(vs: seq<Verdict>, i: nat)
    requires i < |vs|
    ensures AcceptedClaims(vs[..i + 1]) == AcceptedClaims(vs[..i]) + (if vs[i].Ok? then [vs[i].value] else [])
    ensures RowErrors(vs[..i + 1]) == RowErrors(vs[..i]) + (if vs[i].Err? then [RowError(i, vs[i].error)] else [])
  {
    assert vs[..i + 1][..i] == vs[..i];
  }

  /** The loop of the `complete` callback over the records' verdicts: an
      accepted record's claim is appended to `data`, a rejected one adds one
      error text naming its line. */
  method Partition(vs: seq<Verdict>) returns (result: ParseResult)
    ensures result.data == AcceptedClaims(vs)
    ensures result.errors == RowErrors(vs)
    ensures |result.data| + |result.errors| == |vs|
  {
    var data: seq<Claim> := [];
    var errors: seq<string> := [];
    var i := 0;
    while i < |vs|
      invariant 0 <= i <= |vs|
      invariant data == AcceptedClaims(vs[..i])
      invariant errors == RowErrors(vs[..i])
      invariant |data| + |errors| == i
    {
      ReferenceStep(vs, i);
      match vs[i] {
        case Ok(claim) =>
          data := data + [claim];
        case Err(issues) =>
          errors := errors + [RowError(i, issues)];
      }
      i := i + 1;
    }
    assert vs[..|vs|] == vs;
    result := ParseResult(data, errors);
  }

  /** The `complete` callback: each record is coerced and checked, and the
      verdicts are partitioned into claims and error texts. */
  method Complete(rows: seq<Row>, parseNum: string -> Number) returns (result: ParseResult)
    ensures result.data == AcceptedClaims(Verdicts(rows, parseNum))
    ensures result.errors == RowErrors(Verdicts(rows, parseNum))
    ensures |result.data| + |result.errors| == |rows|
  {
    var vs := Verdicts(rows, parseNum);
    result := Partition(vs);
  }

  /** The whole upload service: the `complete` callback on the parser's
      records, or the `error` callback on a parser failure. */
  method ParseCsvFile(outcome: ParserOutcome, parseNum: string -> Number) returns (result: ParseResult)
    ensures outcome.ParserError? ==>
      result.data == [] && result.errors == ["Parse error: " + outcome.message]
    ensures outcome.Records? ==>
      && result.data == AcceptedClaims(Verdicts(outcome.rows, parseNum))
      && result.errors == RowErrors(Verdicts(outcome.rows, parseNum))
    ensures outcome == Records([]) ==> result == ParseResult([], [])
  {
    match outcome
    case Records(rows) =>
      result := Complete(rows, parseNum);
    case ParserError(message) =>
      result := ParseResult([], ["Parse error: " + message]);
  }

  /** Every record lands in exactly one of the two lists. */
  lemma {:induction false} PartitionSizes(vs: seq<Verdict>)
    ensures |AcceptedClaims(vs)| + |RowErrors(vs)| == |vs|
  {
    if vs != [] {
      PartitionSizes(vs[..|vs| - 1]);
    }
  }

  /** Splitting the input splits the accepted claims the same way: records
      keep their relative order. */
  lemma {:induction false} AcceptedClaimsAppend(a: seq<Verdict>, b: seq<Verdict>)
    ensures AcceptedClaims(a + b) == AcceptedClaims(a) + AcceptedClaims(b)
    decreases |b|
  {
    if b == [] {
      assert a + b == a;
    } else {
      var b' := b[..|b| - 1];
      assert (a + b)[..|a + b| - 1] == a + b';
      assert (a + b)[|a + b| - 1] == b[|b| - 1];
      AcceptedClaimsAppend(a, b');
    }
  }

  /** A record is accepted exactly when its claim appears in `data`: each
      accepted record contributes its claim, and each claim in `data` comes
      from an accepted record. */
  lemma {:induction false} AcceptedClaimsMembers(vs: seq<Verdict>)
    ensures forall i :: 0 <= i < |vs| && vs[i].Ok? ==> vs[i].value in AcceptedClaims(vs)
    ensures forall c :: c in AcceptedClaims(vs) ==> exists i :: 0 <= i < |vs| && vs[i] == Ok(c)
  {
    if vs != [] {
      var init := vs[..|vs| - 1];
      AcceptedClaimsMembers(init);
      forall i | 0 <= i < |init| ensures vs[i] == init[i] { }
    }
  }

  /** Each rejected record contributes its error text to `errors`. */
  lemma {:induction false} RejectedRowsReported(vs: seq<Verdict>)
    ensures forall i :: 0 <= i < |vs| && vs[i].Err? ==> RowError(i, vs[i].error) in RowErrors(vs)
  {
    if vs != [] {
      var n := |vs| - 1;
      var init := vs[..n];
      RejectedRowsReported(init);
      forall i | 0 <= i < n && vs[i].Err?
        ensures RowError(i, vs[i].error) in RowErrors(vs)
      {
        assert vs[i] == init[i];
      }
    }
  }

  /** Each error text in `errors` belongs to a rejected record and carries
      that record's position and issues. */
  lemma {:induction false} ReportedRowsRejected(vs: seq<Verdict>)
    ensures forall e :: e in RowErrors(vs) ==>
      exists i :: (0 <= i < |vs| && vs[i].Err? && e == RowError(i, vs[i].error))
  {
    if vs != [] {
      var n := |vs| - 1;
      var init := vs[..n];
      ReportedRowsRejected(init);
      forall e | e in RowErrors(vs)
        ensures exists i :: (0 <= i < |vs| && vs[i].Err? && e == RowError(i, vs[i].error))
      {
        if e in RowErrors(init) {
          var i :| 0 <= i < |init| && init[i].Err? && e == RowError(i, init[i].error);
          assert vs[i] == init[i];
        } else {
          assert vs[n].Err? && e == RowError(n, vs[n].error);
        }
      }
    }
  }

  /** When every verdict is an acceptance, `data` is the accepted claims one
      for one and there are no errors. */
  lemma {:induction false} AllAccepted(vs: seq<Verdict>)
    requires forall i :: 0 <= i < |vs| ==> vs[i].Ok?
    ensures |AcceptedClaims(vs)| == |vs|
    ensures forall i :: 0 <= i < |vs| ==> AcceptedClaims(vs)[i] == vs[i].value
    ensures RowErrors(vs) == []
  {
    if vs != [] {
      AllAccepted(vs[..|vs| - 1]);
    }
  }

  /** When every record satisfies the schema, `data` is their claims, one per
      record in order, and there are no errors. */
  lemma AllAcceptable(rows: seq<Row>, parseNum: string -> Number)
    requires forall i :: 0 <= i < |rows| ==> Acceptable(rows[i], parseNum)
    ensures |AcceptedClaims(Verdicts(rows, parseNum))| == |rows|
    ensures forall i :: 0 <= i < |rows| ==>
      AcceptedClaims(Verdicts(rows, parseNum))[i] == ValidateRow(rows[i], parseNum).value
    ensures RowErrors(Verdicts(rows, parseNum)) == []
  {
    var vs := Verdicts(rows, parseNum);
    forall i | 0 <= i < |vs|
      ensures vs[i].Ok?
    {
      assert vs[i] == ValidateRow(rows[i], parseNum);
    }
    AllAccepted(vs);
  }
}
