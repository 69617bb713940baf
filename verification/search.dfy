/**
 * The search modal: building the recollq query from what the user typed and
 * the current filter, cycling the filter, reading recollq's output into
 * result records, and turning a chosen result into a vault-relative path.
 *
 * recollq itself is not modelled: a run is described by what it reported
 * (`RecollqRun`), and the caller supplies it.
 */
module Search {
  import opened Wrappers
  import opened Text
  import opened Base64

  // ---------------------------------------------------------------------
  // Filter type and query string
  // ---------------------------------------------------------------------

  /** Filter codes stored in the settings (`FilterType`). */
  const Markdown := 0
  const AnyFile := 1
  const AnyEntry := 2

  const MarkdownClause := "mime:text/markdown"
  const NoDirectoryClause := "-mime:inode/directory"

  /** The clause added to the query for a filter code: markdown only, files
      but no directories, or nothing for any other code. */
  function FilterClause(code: int): seq<string> {
    if code == Markdown then [MarkdownClause]
    else if code == AnyFile then [NoDirectoryClause]
    else []
  }

  /** The query text: the user's input followed by the filter clause,
      separated by a single space. */
  function QueryString(input: string, code: int): (q: string)
    ensures code == Markdown ==> q == input + " " + MarkdownClause
    ensures code == AnyFile ==> q == input + " " + NoDirectoryClause
    ensures code != Markdown && code != AnyFile ==> q == input
  {
    var parts := [input] + FilterClause(code);
    assert |parts| == 2 ==> parts[1..] == [parts[1]] && Join(parts[1..], ' ') == parts[1];
    assert |parts| == 2 ==> Join(parts, ' ') == input + " " + parts[1];
    Join(parts, ' ')
  }

  /** True when the input holds nothing but whitespace (`input.trim() === ''`). */
  predicate IsBlank(input: string) {
    JsTrim(input) == ""
  }

  /** The field list recollq is asked to print, in this order. */
  const FieldList := "url mtype created modified tags relevancyrating"

  /** The arguments recollq is started with for a query. */
  function RecollqArgs(query: string): seq<string> {
    ["-F", FieldList, "-S", "relevancyrating", query]
  }

  /** The recollq invocation a keystroke causes, if any: none for blank input,
      otherwise the fixed field and sort options followed by the query. */
  function SearchCall(input: string, code: int): (r: Option<seq<string>>)
    ensures r.None? <==> forall i :: 0 <= i < |input| ==> input[i] in JsWhitespace
    ensures r.Some? ==> |r.value| == 5 && r.value[..4] == ["-F", FieldList, "-S", "relevancyrating"]
    ensures r.Some? ==> r.value[4] == QueryString(input, code)
  {
    if IsBlank(input) then None else Some(RecollqArgs(QueryString(input, code)))
  }

  /** The filter after the Tab key: `(code + 1) % 3` with JavaScript's `%`,
      which keeps the sign of the dividend. */
  function ToggleFilter(code: int): (r: int)
    ensures code >= -1 ==> 0 <= r < 3
    ensures 0 <= code < 3 ==> r != code
    ensures code < -1 ==> -3 < r <= 0
  {
    var n := code + 1;
    if n >= 0 then n % 3 else -((-n) % 3)
  }

  /** Three presses of Tab bring every stored filter back to where it was. */
  lemma ToggleCycles(code: int)
    requires 0 <= code < 3
    ensures ToggleFilter(ToggleFilter(ToggleFilter(code))) == code
    ensures ToggleFilter(Markdown) == AnyFile && ToggleFilter(AnyFile) == AnyEntry
    ensures ToggleFilter(AnyEntry) == Markdown
  {
  }

  /** The filter description shown in the instructions (`filter_msg`);
      undefined for codes outside the table. */
  function FilterMessage(code: int): (r: Option<string>)
    ensures r.Some? <==> 0 <= code < 3
    ensures code == Markdown ==> r == Some("only md files")
    ensures code == AnyFile ==> r == Some("all files excluding dirs")
    ensures code == AnyEntry ==> r == Some("all files and dirs")
  {
    if code == Markdown then Some("only md files")
    else if code == AnyFile then Some("all files excluding dirs")
    else if code == AnyEntry then Some("all files and dirs")
    else None
  }

  /** The query the folder context menu opens the modal with. */
  function FolderQuery(folder: string): (q: string)
    ensures |q| == |folder| + 7
    ensures StartsWith(q, "dir:\"") && q[|q| - 2..] == "\" "
    ensures q[5..|q| - 2] == folder
  {
    "dir:\"" + folder + "\" "
  }

  /** Searching from a folder always runs recollq, restricted to that folder
      and followed by the filter clause. */
  lemma FolderSearchRuns(folder: string, code: int)
    ensures SearchCall(FolderQuery(folder), code).Some?
    ensures SearchCall(FolderQuery(folder), code).value[4]
      == Join(["dir:\"" + folder + "\" "] + FilterClause(code), ' ')
  {
    var q := FolderQuery(folder);
    assert q[0] == 'd' && 'd' !in JsWhitespace;
  }

  // ---------------------------------------------------------------------
  // Reading recollq's output
  // ---------------------------------------------------------------------

  /** One search hit (`RecollResult`). Text fields hold the UTF-8 bytes of the
      decoded field. `relevance` is None when the line had only five fields
      (the sixth is then `undefined` in the source). */
  datatype Hit = Hit(
    fileName: Bytes,
    filePath: Bytes,
    fileType: Bytes,
    createdDate: Bytes,
    modifiedDate: Bytes,
    tags: seq<Bytes>,
    relevance: Option<Bytes>)

  /** Behaviour the model takes from outside: date formatting of a raw
      timestamp field (`formatUnixTime(parseInt(s, 10), dateFormat)`), and how
      Node's base64 reader treats text that is not a canonical encoding. */
  datatype Foreign = Foreign(formatDate: Bytes -> Bytes, decodeOther: string -> Bytes)

  /** A field as `Buffer.from(field, 'base64')` reads it. */
  function DecodeField(field: string, ext: Foreign): (b: Bytes)
    ensures forall v :: field == Encode(v) ==> b == v
  {
    match Decode(field)
    case Some(v) =>
      assert forall w :: field == Encode(w) ==> w == v by {
        forall w | field == Encode(w) ensures w == v {
          DecodeIsInverse(field, w);
        }
      }
      v
    case None =>
      assert forall w :: field != Encode(w) by {
        forall w ensures field != Encode(w) {
          DecodeIsInverse(field, w);
        }
      }
      ext.decodeOther(field)
  }

  const Slash := '/' as uint8
  const Comma := ',' as uint8

  /** The tags field: no tags when empty, otherwise its comma-separated parts;
      joining the tags with commas gives back the field. */
  function SplitTags(raw: Bytes): (tags: seq<Bytes>)
    ensures Join(tags, Comma) == raw
    ensures raw == [] <==> tags == []
    ensures forall i :: 0 <= i < |tags| ==> Comma !in tags[i]
  {
    if raw == [] then [] else Split(raw, Comma)
  }

  /** The tags are the only comma-free pieces that join back to the field
      and are empty exactly when the field is. */
  lemma {:induction false} SplitTagsUnique(raw: Bytes, tags: seq<Bytes>)
    requires Join(tags, Comma) == raw
    requires forall i :: 0 <= i < |tags| ==> Comma !in tags[i]
    requires tags == [] <==> raw == []
    ensures tags == SplitTags(raw)
  {
    if tags != [] {
      SplitJoin(tags, Comma);
    }
  }

  /** A date field: kept empty when empty, formatted otherwise. */
  function DateField(raw: Bytes, ext: Foreign): Bytes {
    if raw == [] then [] else ext.formatDate(raw)
  }

  /** The hit for six (or more) decoded fields, in the order url, mtype,
      created, modified, tags, relevance. */
  function HitOf(fields: seq<Bytes>, ext: Foreign): (h: Hit)
    requires |fields| >= 5
    ensures h.filePath == fields[0] && h.fileType == fields[1]
    ensures Slash !in h.fileName
    ensures |h.fileName| <= |h.filePath| && h.filePath[|h.filePath| - |h.fileName|..] == h.fileName
    ensures h.fileName == h.filePath || h.filePath[|h.filePath| - |h.fileName| - 1] == Slash
    ensures |fields| >= 6 <==> h.relevance.Some?
    ensures h.relevance.Some? ==> h.relevance.value == fields[5]
    ensures Join(h.tags, Comma) == fields[4]
    ensures forall i :: 0 <= i < |h.tags| ==> Comma !in h.tags[i]
    ensures h.tags == [] <==> fields[4] == []
    ensures fields[2] == [] ==> h.createdDate == []
    ensures fields[2] != [] ==> h.createdDate == ext.formatDate(fields[2])
    ensures fields[3] == [] ==> h.modifiedDate == []
    ensures fields[3] != [] ==> h.modifiedDate == ext.formatDate(fields[3])
  {
    var url := fields[0];
    var name := LastPiece(url, Slash);
    Hit(
      fileName := name,
      filePath := url,
      fileType := fields[1],
      createdDate := DateField(fields[2], ext),
      modifiedDate := DateField(fields[3], ext),
      tags := SplitTags(fields[4]),
      relevance := if |fields| >= 6 then Some(fields[5]) else None)
  }

  /** Why reading the output did not produce hits: a line with fewer than five
      fields makes the source's `tags.split` throw inside the exit handler. */
  datatype ParseError = TooFewFields(lineIndex: nat)

  /** The hit for one result line. */
  function ParseLine(line: string, ext: Foreign): Result<Hit, ParseError> {
    var fields := Split(line, ' ');
    if |fields| < 5 then Failure(TooFewFields(0))
    else Success(HitOf(seq(|fields|, i requires 0 <= i < |fields| => DecodeField(fields[i], ext)), ext))
  }

  /** The index of the first failure in `rs` from `from` on, or `|rs|` when
      there is none. */
  function FirstFailure<R, E>(rs: seq<Result<R, E>>, from: nat): (k: nat)
    requires from <= |rs|
    ensures from <= k <= |rs|
    ensures forall i :: from <= i < k ==> rs[i].Success?
    ensures k < |rs| ==> rs[k].Failure?
    decreases |rs| - from
  {
    if from == |rs| || rs[from].Failure? then from else FirstFailure(rs, from + 1)
  }

  /** The values of results that are all successes, in order. */
  function Values<R, E>(rs: seq<Result<R, E>>): (vs: seq<R>)
    requires forall i :: 0 <= i < |rs| ==> rs[i].Success?
    ensures |vs| == |rs|
    ensures forall i :: 0 <= i < |rs| ==> rs[i] == Success(vs[i])
  {
    seq(|rs|, i requires 0 <= i < |rs| => rs[i].value)
  }

  /** The hits for result lines, one per line and in order; reading stops
      at the first line that does not read, and reports its index. */
  function ParseLines(lines: seq<string>, ext: Foreign): (r: Result<seq<Hit>, ParseError>)
    ensures r.Success? ==> |r.value| == |lines|
    ensures r.Success? ==> forall i :: 0 <= i < |lines| ==> ParseLine(lines[i], ext) == Success(r.value[i])
    ensures r.Failure? ==>
              && r.error.lineIndex < |lines|
              && ParseLine(lines[r.error.lineIndex], ext).Failure?
              && forall i :: 0 <= i < r.error.lineIndex ==> ParseLine(lines[i], ext).Success?
  {
    var parsed := seq(|lines|, i requires 0 <= i < |lines| => ParseLine(lines[i], ext));
    assert forall i :: 0 <= i < |lines| ==> ParseLine(lines[i], ext) == parsed[i];
    var k := FirstFailure(parsed, 0);
    if k < |lines| then Failure(TooFewFields(k)) else Success(Values(parsed))
  }

  /** The lines of recollq's standard output that carry results: the trimmed
      output split on newlines, without the two header lines. */
  function ResultLines(stdout: string): (lines: seq<string>)
    ensures |Split(JsTrim(stdout), '\n')| <= 2 ==> lines == []
    ensures |Split(JsTrim(stdout), '\n')| > 2 ==> lines == Split(JsTrim(stdout), '\n')[2..]
  {
    var all := Split(JsTrim(stdout), '\n');
    if |all| <= 2 then [] else all[2..]
  }

  /** The hits in recollq's standard output. */
  function ParseOutput(stdout: string, ext: Foreign): Result<seq<Hit>, ParseError> {
    ParseLines(ResultLines(stdout), ext)
  }

  /** Field values, each base64-encoded. */
  function EncodeFields(raw: seq<Bytes>): (encoded: seq<string>)
    ensures |encoded| == |raw|
    ensures forall i :: 0 <= i < |raw| ==> encoded[i] == Encode(raw[i])
  {
    seq(|raw|, i requires 0 <= i < |raw| => Encode(raw[i]))
  }

  /** The line recollq prints for one result: its field values (asked for
      with `-F 'url mtype created modified tags relevancyrating'`)
      base64-encoded and separated by single spaces. */
  function EncodeLine(raw: seq<Bytes>): string {
    Join(EncodeFields(raw), ' ')
  }

  /** A line of canonically encoded fields reads back as the hit of those
      values when there are at least five of them, and fails otherwise. */
  lemma LineRoundTrip(raw: seq<Bytes>, ext: Foreign)
    ensures |raw| < 5 ==> ParseLine(EncodeLine(raw), ext) == Failure(TooFewFields(0))
    ensures |raw| >= 5 ==> ParseLine(EncodeLine(raw), ext) == Success(HitOf(raw, ext))
  {
    var encoded := EncodeFields(raw);
    if raw != [] {
      forall i | 0 <= i < |raw|
        ensures ' ' !in encoded[i]
        ensures DecodeField(encoded[i], ext) == raw[i]
      {
      }
      SplitJoin(encoded, ' ');
      var decoded := seq(|encoded|, i requires 0 <= i < |encoded| => DecodeField(encoded[i], ext));
      assert decoded == raw;
    }
  }

  /** The hit for such a line: file path and name from the url, the tags split
      on commas, the relevance as given. */
  lemma LineRoundTripFields(url: Bytes, mtype: Bytes, created: Bytes, modified: Bytes,
                            tags: Bytes, relevance: Bytes, ext: Foreign)
    ensures var h := HitOf([url, mtype, created, modified, tags, relevance], ext);
      && h.filePath == url && h.fileType == mtype && h.relevance == Some(relevance)
      && h.fileName == LastPiece(url, Slash)
      && (tags == [] ==> h.tags == [])
      && (tags != [] ==> h.tags == Split(tags, Comma))
  {
  }

  /** Two header lines followed by result lines, where the text neither
      begins nor ends with whitespace: the result lines are exactly those
      lines. */
  lemma ResultLinesOfOutput(h1: string, h2: string, lines: seq<string>)
    requires '\n' !in h1 && '\n' !in h2
    requires forall i :: 0 <= i < |lines| ==> '\n' !in lines[i]
    requires h1 != [] && h1[0] !in JsWhitespace
    requires lines != [] && lines[|lines| - 1] != []
    requires lines[|lines| - 1][|lines[|lines| - 1]| - 1] !in JsWhitespace
    ensures ResultLines(h1 + "\n" + h2 + "\n" + Join(lines, '\n')) == lines
  {
    var j := Join(lines, '\n');
    var text := h1 + "\n" + h2 + "\n" + j;
    JoinEnds(lines, '\n');
    assert text[0] == h1[0] && text[|text| - 1] == j[|j| - 1];
    StripUntouched(text, JsWhitespace);
    OutputSplit(h1, h2, j);
    SplitJoin(lines, '\n');
    assert ([h1] + [h2] + lines)[2..] == lines;
  }

  /** Two newline-free header lines split off the front of the output. */
  lemma OutputSplit(h1: string, h2: string, rest: string)
    requires '\n' !in h1 && '\n' !in h2
    ensures Split(h1 + "\n" + h2 + "\n" + rest, '\n') == [h1] + [h2] + Split(rest, '\n')
  {
    assert h1 + "\n" + h2 + "\n" + rest == h1 + ['\n'] + (h2 + ['\n'] + rest);
    SplitConcat(h1, '\n', h2 + ['\n'] + rest);
    SplitConcat(h2, '\n', rest);
    SplitWithoutSeparator(h1, '\n');
    SplitWithoutSeparator(h2, '\n');
  }

  /** No character of an encoding is JavaScript whitespace. */
  lemma EncodingCharNotWhitespace(c: char)
    requires EncodingChar(c)
    ensures c !in JsWhitespace
  {
  }

  /** A non-empty encoding ends in an encoding character. */
  lemma EncodeEnd(b: Bytes)
    requires b != []
    ensures var e := Encode(b); e != [] && EncodingChar(e[|e| - 1])
  {
  }

  /** Fields joined with spaces hold no newline when no field does, and end
      with the last character of the last field. */
  lemma FieldsLineShape(fields: seq<string>)
    requires |fields| >= 1
    requires forall i :: 0 <= i < |fields| ==> '\n' !in fields[i]
    ensures '\n' !in Join(fields, ' ')
    ensures var last := fields[|fields| - 1];
      last != [] ==> var l := Join(fields, ' '); l != [] && l[|l| - 1] == last[|last| - 1]
  {
    JoinAvoids(fields, ' ', '\n');
    JoinEnds(fields, ' ');
  }

  /** An encoded line holds no newline, and when its last value is non-empty
      it ends in an encoding character. */
  lemma EncodeLineShape(raw: seq<Bytes>)
    ensures '\n' !in EncodeLine(raw)
    ensures raw != [] && raw[|raw| - 1] != [] ==>
      var l := EncodeLine(raw); l != [] && EncodingChar(l[|l| - 1])
  {
    if raw != [] {
      var encoded := EncodeFields(raw);
      if raw[|raw| - 1] != [] {
        EncodeEnd(raw[|raw| - 1]);
      }
      FieldsLineShape(encoded);
    }
  }

  /** The encoded lines of `rows`, one per row and in order. */
  function EncodeLines(rows: seq<seq<Bytes>>): (lines: seq<string>)
    ensures |lines| == |rows|
    ensures forall i :: 0 <= i < |rows| ==> lines[i] == EncodeLine(rows[i])
  {
    seq(|rows|, i requires 0 <= i < |rows| => EncodeLine(rows[i]))
  }

  /** The hits `rows` stand for, one per row and in order. */
  function RowHits(rows: seq<seq<Bytes>>, ext: Foreign): (hits: seq<Hit>)
    requires forall i :: 0 <= i < |rows| ==> |rows[i]| >= 5
    ensures |hits| == |rows|
    ensures forall i :: 0 <= i < |rows| ==> hits[i] == HitOf(rows[i], ext)
  {
    seq(|rows|, i requires 0 <= i < |rows| => HitOf(rows[i], ext))
  }

  /** Result lines that each read as a given hit read as those hits. */
  lemma ParseLinesOfHits(lines: seq<string>, hits: seq<Hit>, ext: Foreign)
    requires |lines| == |hits|
    requires forall i :: 0 <= i < |lines| ==> ParseLine(lines[i], ext) == Success(hits[i])
    ensures ParseLines(lines, ext) == Success(hits)
  {
    var r := ParseLines(lines, ext);
    assert r.Success?;
    assert r.value == hits;
  }

  /** The encoded lines of rows with at least five values each read as the
      hits of the rows, in order. */
  lemma EncodeLinesRead(rows: seq<seq<Bytes>>, ext: Foreign)
    requires forall i :: 0 <= i < |rows| ==> |rows[i]| >= 5
    ensures ParseLines(EncodeLines(rows), ext) == Success(RowHits(rows, ext))
  {
    var lines := EncodeLines(rows);
    var hits := RowHits(rows, ext);
    forall i | 0 <= i < |rows|
      ensures ParseLine(lines[i], ext) == Success(hits[i])
    {
      LineRoundTrip(rows[i], ext);
    }
    ParseLinesOfHits(lines, hits, ext);
  }

  /** No encoded line holds a newline, and the last ends in an encoding
      character when the last value of the last row is non-empty. */
  lemma EncodeLinesShape(rows: seq<seq<Bytes>>)
    requires rows != [] && rows[|rows| - 1] != [] && rows[|rows| - 1][|rows[|rows| - 1]| - 1] != []
    ensures forall i :: 0 <= i < |rows| ==> '\n' !in EncodeLine(rows[i])
    ensures var l := EncodeLine(rows[|rows| - 1]); l != [] && EncodingChar(l[|l| - 1])
  {
    forall i | 0 <= i < |rows|
      ensures '\n' !in EncodeLine(rows[i])
    {
      EncodeLineShape(rows[i]);
    }
    EncodeLineShape(rows[|rows| - 1]);
  }

  /** The result lines of two headers followed by the encoded lines of
      `rows` are exactly those encoded lines. */
  lemma EncodedResultLines(h1: string, h2: string, rows: seq<seq<Bytes>>)
    requires '\n' !in h1 && '\n' !in h2
    requires h1 != [] && h1[0] !in JsWhitespace
    requires rows != [] && rows[|rows| - 1] != [] && rows[|rows| - 1][|rows[|rows| - 1]| - 1] != []
    ensures ResultLines(h1 + "\n" + h2 + "\n" + Join(EncodeLines(rows), '\n')) == EncodeLines(rows)
  {
    var lines := EncodeLines(rows);
    var last := EncodeLine(rows[|rows| - 1]);
    EncodeLinesShape(rows);
    EncodingCharNotWhitespace(last[|last| - 1]);
    assert lines[|lines| - 1] == last;
    ResultLinesOfOutput(h1, h2, lines);
  }

  /** The output of a run that found `rows`: two header lines, then one
      encoded line per row. When the first header does not begin with
      whitespace and the last value of the last row is non-empty, it reads
      back as the hits of the rows, in order. */
  lemma OutputRoundTrip(h1: string, h2: string, rows: seq<seq<Bytes>>, ext: Foreign)
    requires '\n' !in h1 && '\n' !in h2
    requires h1 != [] && h1[0] !in JsWhitespace
    requires forall i :: 0 <= i < |rows| ==> |rows[i]| >= 5
    requires rows != [] && rows[|rows| - 1][|rows[|rows| - 1]| - 1] != []
    ensures ParseOutput(h1 + "\n" + h2 + "\n" + Join(EncodeLines(rows), '\n'), ext)
         == Success(RowHits(rows, ext))
  {
    EncodedResultLines(h1, h2, rows);
    EncodeLinesRead(rows, ext);
  }

  // ---------------------------------------------------------------------
  // Running a query
  // ---------------------------------------------------------------------

  /** What a recollq process reported: its exit (with the exit code, or None
      when a signal ended it) and the captured streams, or a failure to start. */
  datatype RecollqRun =
    | Closed(exitCode: Option<int>, stdout: string, stderr: string)
    | SpawnFailed(message: string)

  /** How the promise of `executeRecollq` ends: resolved with the hits,
      rejected with a message, or never settled (the exit handler threw). */
  datatype QueryOutcome = Resolved(hits: seq<Hit>) | Rejected(reason: string) | Unsettled

  /** The outcome of one recollq run. */
  function ExecuteRecollq(run: RecollqRun, ext: Foreign): (r: QueryOutcome)
    ensures run.SpawnFailed? ==> r == Rejected(run.message)
    ensures run.Closed? && run.exitCode != Some(0) ==> r == Rejected(run.stderr)
    ensures run.Closed? && run.exitCode == Some(0) ==>
      (r.Resolved? <==> ParseOutput(run.stdout, ext).Success?)
    ensures r.Resolved? ==> r.hits == ParseOutput(run.stdout, ext).value
    ensures run.Closed? && run.exitCode == Some(0) && ParseOutput(run.stdout, ext).Failure? ==> r == Unsettled
  {
    match run
    case SpawnFailed(message) => Rejected(message)
    case Closed(code, stdout, stderr) =>
      if code != Some(0) then Rejected(stderr)
      else
        match ParseOutput(stdout, ext)
        case Success(hits) => Resolved(hits)
        case Failure(_) => Unsettled
  }

  /** What the modal shows: the hits, with the column labels visible exactly
      when there is at least one; or nothing yet while the query is pending. */
  datatype Suggestions = Shown(hits: seq<Hit>, labelsVisible: bool) | Pending

  /** `getSuggestions`: blank input shows nothing without running recollq; a
      failed query shows an empty list; otherwise the hits of the run. */
  function GetSuggestions(input: string, code: int, run: RecollqRun, ext: Foreign): (r: Suggestions)
    ensures SearchCall(input, code).None? ==> r == Shown([], false)
    ensures SearchCall(input, code).Some? ==> match ExecuteRecollq(run, ext)
      case Resolved(hits) => r == Shown(hits, |hits| > 0)
      case Rejected(_) => r == Shown([], false)
      case Unsettled => r == Pending
  {
    if IsBlank(input) then Shown([], false)
    else
      match ExecuteRecollq(run, ext)
      case Resolved(hits) => Shown(hits, |hits| > 0)
      case Rejected(_) => Shown([], false)
      case Unsettled => Pending
  }

  /** Blank input ignores the run altogether: recollq is never consulted. */
  lemma BlankInputIgnoresRun(input: string, code: int, run1: RecollqRun, run2: RecollqRun, ext: Foreign)
    requires forall i :: 0 <= i < |input| ==> input[i] in JsWhitespace
    ensures GetSuggestions(input, code, run1, ext) == GetSuggestions(input, code, run2, ext) == Shown([], false)
  {
  }

  /** A failing recollq (non-zero exit or failure to start) never produces an
      error for the user, only an empty list. */
  lemma FailureShowsNothing(input: string, code: int, run: RecollqRun, ext: Foreign)
    requires run.SpawnFailed? || run.exitCode != Some(0)
    ensures GetSuggestions(input, code, run, ext) == Shown([], false)
  {
  }

  // ---------------------------------------------------------------------
  // Choosing a hit
  // ---------------------------------------------------------------------

  /** `onChooseSuggestion` as written: drop the first seven characters
      (`file://`), then, if what is left starts with the vault path, drop the
      vault path and one more character. */
  function ChosenPath<T(==)>(filePath: seq<T>, vaultPath: seq<T>): (r: seq<T>)
    ensures var abs := SliceFrom(filePath, 7);
      && (StartsWith(abs, vaultPath) && |abs| > |vaultPath| ==> abs == vaultPath + [abs[|vaultPath|]] + r)
      && (abs == vaultPath ==> r == [])
      && (!StartsWith(abs, vaultPath) ==> r == abs)
  {
    var abs := SliceFrom(filePath, 7);
    if StartsWith(abs, vaultPath) then SliceFrom(abs, |vaultPath| + 1) else abs
  }

  /** A file in a sibling folder whose name merely extends the vault's name
      is mistaken for a vault file: vault `/notes`, hit `/notes2x/a.md`,
      chosen path `x/a.md` although the hit is not inside the vault. */
  lemma ChosenPathSiblingFolder()
    ensures ChosenPath("file:///notes2x/a.md", "/notes") == "x/a.md"
    ensures !StartsWith("/notes2x/a.md", "/notes" + "/")
  {
    assert SliceFrom("file:///notes2x/a.md", 7) == "/notes2x/a.md";
    assert "/notes2x/a.md"[..6] == "/notes";
    assert "/notes2x/a.md"[6] != ("/notes" + "/")[6];
  }

  /** The vault-relative path of a chosen hit, stripping the vault path only
      when it is followed by the separator: the result is either the path
      after `file://` unchanged, or the part of it below the vault folder. */
  function VaultRelativePath<T(==)>(filePath: seq<T>, vaultPath: seq<T>, sep: T): (r: seq<T>)
    ensures var abs := SliceFrom(filePath, 7);
      && (StartsWith(abs, vaultPath + [sep]) ==> vaultPath + [sep] + r == abs)
      && (!StartsWith(abs, vaultPath + [sep]) ==> r == abs)
  {
    var abs := SliceFrom(filePath, 7);
    var dir := vaultPath + [sep];
    if StartsWith(abs, dir) then
      assert abs == abs[..|dir|] + abs[|dir|..];
      abs[|dir|..]
    else abs
  }

  /** For paths inside the vault the two definitions agree. */
  lemma ChosenPathInsideVault<T>(filePath: seq<T>, vaultPath: seq<T>, sep: T)
    requires StartsWith(SliceFrom(filePath, 7), vaultPath + [sep])
    ensures ChosenPath(filePath, vaultPath) == VaultRelativePath(filePath, vaultPath, sep)
  {
    var abs := SliceFrom(filePath, 7);
    assert abs[..|vaultPath|] == (vaultPath + [sep])[..|vaultPath|];
  }
}
