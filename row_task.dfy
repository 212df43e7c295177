/**
 * The row task `process_single_row` (mac_ai_cleaner.py:485-523) with the HTTP
 * call `call_ai_api` replaced by its answer: the prompt built from the row's
 * original columns, and the tolerant line parser that turns the service's
 * reply into a map from schema field to trimmed value.
 */
module RowTask {
  import opened Wrappers
  import opened Text
  import opened FieldSchema

  /** One table row: column name to cell text. */
  type Row = map<string, string>

  /** What the call to the text-generation service gives back for one row. */
  datatype ApiReply =
    | Answer(content: string)  // the reply text, already stripped by call_ai_api
    | ApiFailure               // call_ai_api raised (network error, HTTP status, bad JSON)
    | NoReplyInTime            // the coordinator's 30-second wait for the row ran out

  /** The service, as seen by the run: the reply to the call made for row `idx` with this prompt. */
  type Service = (nat, string) -> ApiReply

  // ---------------------------------------------------------------------------
  // Prompt construction (mac_ai_cleaner.py:489-490)
  // ---------------------------------------------------------------------------

  const DataHeader: string := "\n当前数据：\n"
  const OutputInstruction: string := "\n请严格按照要求输出结果："

  ghost predicate HasColumns(row: Row, cols: seq<string>)
  {
    forall k :: 0 <= k < |cols| ==> cols[k] in row
  }

  /** The row's cell in column `col`; a well-formed table has every cell, a missing one reads as empty. */
  function Cell(row: Row, col: string): (r: string)
    ensures col in row ==> r == row[col]
  {
    if col in row then row[col] else ""
  }

  /** The `"{col}: {row[col]}"` line of every original column, in column order. */
  function RowLines(cols: seq<string>, row: Row): seq<string>
  {
    seq(|cols|, k requires 0 <= k < |cols| => cols[k] + ": " + Cell(row, cols[k]))
  }

  /** The prompt of one row: the template, the row's data lines and the closing instruction. */
  function BuildPrompt(template: string, cols: seq<string>, row: Row): string
  {
    template + DataHeader + Join(RowLines(cols, row), '\n') + OutputInstruction
  }

  /**
   * The prompt starts with the template and ends with the instruction, and,
   * when neither names nor values hold a newline, the part in between splits
   * back into exactly one `name: value` line per original column, in order.
   */
  lemma PromptCarriesRow(template: string, cols: seq<string>, row: Row)
    requires HasColumns(row, cols) && |cols| >= 1
    requires forall k :: 0 <= k < |cols| ==> '\n' !in cols[k] && '\n' !in row[cols[k]]
    ensures var prompt := BuildPrompt(template, cols, row);
            var data := prompt[|template| + |DataHeader|..|prompt| - |OutputInstruction|];
            && prompt[..|template|] == template
            && prompt[|prompt| - |OutputInstruction|..] == OutputInstruction
            && |Split(data, '\n')| == |cols|
            && forall k :: 0 <= k < |cols| ==> Split(data, '\n')[k] == cols[k] + ": " + row[cols[k]]
  {
    var lines := RowLines(cols, row);
    forall k | 0 <= k < |lines|
      ensures '\n' !in lines[k]
    {
      assert lines[k] == cols[k] + ": " + row[cols[k]];
    }
    SplitJoin(lines, '\n');
    var data := Join(lines, '\n');
    var prompt := BuildPrompt(template, cols, row);
    assert prompt == template + DataHeader + data + OutputInstruction;
    assert prompt[|template| + |DataHeader|..|prompt| - |OutputInstruction|] == data;
  }

  // ---------------------------------------------------------------------------
  // Reply parsing (mac_ai_cleaner.py:496-519)
  // ---------------------------------------------------------------------------

  /**
   * The separator choice at mac_ai_cleaner.py:505-510: a line holding an ASCII
   * colon is split at its first ASCII colon, any other line holding a
   * full-width colon at its first full-width colon, and a line with neither is
   * skipped. The value keeps any later colons.
   */
  function SplitAtSeparator(line: string): (r: Option<(string, string)>)
    ensures ':' in line ==>
              r.Some? && r.value.0 + [':'] + r.value.1 == line && ':' !in r.value.0
    ensures ':' !in line && FullColon in line ==>
              r.Some? && r.value.0 + [FullColon] + r.value.1 == line && FullColon !in r.value.0
    ensures ':' !in line && FullColon !in line ==> r.None?
  {
    var i := IndexOf(line, ':');
    if i < |line| then
      assert line == line[..i] + [':'] + line[i + 1..];
      Some((line[..i], line[i + 1..]))
    else
      var j := IndexOf(line, FullColon);
      if j < |line| then
        assert line == line[..j] + [FullColon] + line[j + 1..];
        Some((line[..j], line[j + 1..]))
      else None
  }

  /** A parsed reply line: the cleaned label and the stripped value. */
  type Entry = (string, string)

  /** What one reply line contributes before the schema test (mac_ai_cleaner.py:500-514). */
  function ParseLine(word: WordClass, raw: string): Option<Entry>
  {
    var line := Strip(raw);
    if line == [] then None
    else match SplitAtSeparator(line)
      case None => None
      case Some((field, value)) => Some((CleanFieldName(word, Strip(field)), Strip(value)))
  }

  /** A parsed line whose value `strip()` would leave alone. */
  lemma ParseLineStripped(word: WordClass, raw: string)
    ensures ParseLine(word, raw).Some? ==> IsStripped(ParseLine(word, raw).value.1)
  {
    var line := Strip(raw);
    if line != [] && SplitAtSeparator(line).Some? {
      StripIsStripped(SplitAtSeparator(line).value.1);
    }
  }

  /** Every line parsed, in order. */
  function ParseAll(word: WordClass, lines: seq<string>): seq<Option<Entry>>
  {
    seq(|lines|, k requires 0 <= k < |lines| => ParseLine(word, lines[k]))
  }

  lemma ParseAllSnoc(word: WordClass, lines: seq<string>, i: nat)
    requires i < |lines|
    ensures ParseAll(word, lines[..i + 1]) == ParseAll(word, lines[..i]) + [ParseLine(word, lines[i])]
  {
  }

  /** Parsed line `e` names schema field `k`. */
  predicate Names(fields: seq<string>, e: Option<Entry>, k: string)
  {
    e.Some? && e.value.0 == k && k in fields
  }

  /**
   * The dictionary the loop at mac_ai_cleaner.py:499-517 fills: each parsed
   * line whose label is a schema field sets that field.
   */
  function Collect(fields: seq<string>, entries: seq<Option<Entry>>): (m: map<string, string>)
    ensures forall k :: k in m ==> k in fields
    decreases |entries|
  {
    if entries == [] then map[]
    else
      var m := Collect(fields, entries[..|entries| - 1]);
      var e := entries[|entries| - 1];
      if e.Some? && e.value.0 in fields then m[e.value.0 := e.value.1] else m
  }

  lemma CollectSnoc(fields: seq<string>, entries: seq<Option<Entry>>, e: Option<Entry>)
    ensures Collect(fields, entries + [e]) ==
            if e.Some? && e.value.0 in fields then Collect(fields, entries)[e.value.0 := e.value.1]
            else Collect(fields, entries)
  {
    assert (entries + [e])[..|entries|] == entries;
  }

  /**
   * The collected map holds exactly the schema fields some entry names, and
   * the value of each comes from the LAST entry naming it.
   */
  lemma {:induction false} CollectLastWins(fields: seq<string>, entries: seq<Option<Entry>>)
    ensures forall k :: k in Collect(fields, entries) ==>
              exists j :: 0 <= j < |entries| && Names(fields, entries[j], k) &&
                          Collect(fields, entries)[k] == entries[j].value.1
    ensures forall k, j :: 0 <= j < |entries| && Names(fields, entries[j], k) &&
                           (forall j' :: j < j' < |entries| ==> !Names(fields, entries[j'], k)) ==>
              k in Collect(fields, entries) && Collect(fields, entries)[k] == entries[j].value.1
    decreases |entries|
  {
    if entries != [] {
      var n := |entries|;
      var pre := entries[..n - 1];
      var m := Collect(fields, pre);
      var r := Collect(fields, entries);
      CollectLastWins(fields, pre);
      forall k | k in r
        ensures exists j :: 0 <= j < n && Names(fields, entries[j], k) && r[k] == entries[j].value.1
      {
        if !Names(fields, entries[n - 1], k) {
          assert k in m && r[k] == m[k];
          var j :| 0 <= j < n - 1 && Names(fields, pre[j], k) && m[k] == pre[j].value.1;
          assert pre[j] == entries[j];
        }
      }
      forall k, j | 0 <= j < n && Names(fields, entries[j], k) &&
                    (forall j' :: j < j' < n ==> !Names(fields, entries[j'], k))
        ensures k in r && r[k] == entries[j].value.1
      {
        if j < n - 1 {
          assert !Names(fields, entries[n - 1], k);
          assert pre[j] == entries[j];
          forall j' | j < j' < n - 1
            ensures !Names(fields, pre[j'], k)
          {
            assert pre[j'] == entries[j'];
          }
        }
      }
    }
  }

  /** `result.strip().split('\n')` */
  function ReplyLines(reply: string): seq<string>
  {
    Split(Strip(reply), '\n')
  }

  /** The field map `process_single_row` returns for a reply text. */
  function ParseReplySpec(word: WordClass, fields: seq<string>, reply: string): map<string, string>
  {
    Collect(fields, ParseAll(word, ReplyLines(reply)))
  }

  /**
   * The parsed reply keeps exactly the schema fields that some line names; the
   * value of each is the stripped value of the LAST line naming it; and every
   * value is whitespace-trimmed.
   */
  lemma ParseReplyLastWins(word: WordClass, fields: seq<string>, reply: string)
    ensures var entries := ParseAll(word, ReplyLines(reply));
            var m := ParseReplySpec(word, fields, reply);
            && (forall k :: k in m ==> k in fields && IsStripped(m[k]))
            && (forall k :: k in m ==> exists j :: 0 <= j < |entries| && Names(fields, entries[j], k))
            && (forall k, j :: 0 <= j < |entries| && Names(fields, entries[j], k) &&
                               (forall j' :: j < j' < |entries| ==> !Names(fields, entries[j'], k)) ==>
                  k in m && m[k] == entries[j].value.1)
  {
    var lines := ReplyLines(reply);
    var entries := ParseAll(word, lines);
    CollectLastWins(fields, entries);
    var m := Collect(fields, entries);
    forall k | k in m
      ensures IsStripped(m[k])
    {
      var j :| 0 <= j < |entries| && Names(fields, entries[j], k) && m[k] == entries[j].value.1;
      ParseLineStripped(word, lines[j]);
    }
  }

  /** `ParseLine` spelled the way the loop body computes it: split at the first ASCII colon, else at the first full-width one. */
  lemma ParseLineSteps(word: WordClass, raw: string)
    ensures var line := Strip(raw);
            var i := IndexOf(line, ':');
            var j := IndexOf(line, FullColon);
            ParseLine(word, raw) ==
              if line == [] then None
              else if ':' in line then Some((CleanFieldName(word, Strip(line[..i])), Strip(line[i + 1..])))
              else if FullColon in line then Some((CleanFieldName(word, Strip(line[..j])), Strip(line[j + 1..])))
              else None
  {
  }

  /** One turn of the parse loop: line `i` sets its field when it parses to a schema field. */
  lemma ParseStep(word: WordClass, fields: seq<string>, lines: seq<string>, i: nat)
    requires i < |lines|
    ensures var m := Collect(fields, ParseAll(word, lines[..i]));
            var e := ParseLine(word, lines[i]);
            Collect(fields, ParseAll(word, lines[..i + 1])) ==
              if e.Some? && e.value.0 in fields then m[e.value.0 := e.value.1] else m
  {
    ParseAllSnoc(word, lines, i);
    CollectSnoc(fields, ParseAll(word, lines[..i]), ParseLine(word, lines[i]));
  }

  /** The parse loop of `process_single_row` (mac_ai_cleaner.py:496-519). */
  method ParseReply(word: WordClass, fields: seq<string>, result: string) returns (fieldValues: map<string, string>)
    ensures fieldValues == ParseReplySpec(word, fields, result)
    ensures forall k :: k in fieldValues ==> k in fields && IsStripped(fieldValues[k])
  {
    var lines := Split(Strip(result), '\n');
    fieldValues := map[];
    var i := 0;
    while i < |lines|
      invariant 0 <= i <= |lines|
      invariant fieldValues == Collect(fields, ParseAll(word, lines[..i]))
    {
      ParseStep(word, fields, lines, i);
      ParseLineSteps(word, lines[i]);
      var line := Strip(lines[i]);
      if line == [] {
        i := i + 1;
        continue;
      }
      var field, value;
      if ':' in line {
        var j := IndexOf(line, ':');
        field, value := line[..j], line[j + 1..];
      } else if FullColon in line {
        var j := IndexOf(line, FullColon);
        field, value := line[..j], line[j + 1..];
      } else {
        i := i + 1;
        continue;
      }
      field := Strip(field);
      var cleaned := CleanFieldName(word, field);
      value := Strip(value);
      if cleaned in fields {
        fieldValues := fieldValues[cleaned := value];
      }
      i := i + 1;
    }
    assert lines[..i] == lines;
    ParseReplyLastWins(word, fields, result);
  }

  /** A string without `c` splits into pieces without `c`. */
  lemma {:induction false} SplitKeepsAbsent(s: string, sep: char, c: char)
    requires c !in s
    ensures forall k :: 0 <= k < |Split(s, sep)| ==> c !in Split(s, sep)[k]
    decreases |s|
  {
    var i := IndexOf(s, sep);
    if i < |s| {
      assert forall x :: x in s[i + 1..] ==> x in s;
      SplitKeepsAbsent(s[i + 1..], sep, c);
      assert forall x :: x in s[..i] ==> x in s;
    }
  }

  /** A reply in which no line has a colon of either width yields no field at all. */
  lemma NoColonNoFields(word: WordClass, fields: seq<string>, reply: string)
    requires ':' !in reply && FullColon !in reply
    ensures ParseReplySpec(word, fields, reply) == map[]
  {
    StripIsStripped(reply);
    var stripped := Strip(reply);
    assert forall x :: x in stripped ==> x in reply;
    var lines := ReplyLines(reply);
    SplitKeepsAbsent(stripped, '\n', ':');
    SplitKeepsAbsent(stripped, '\n', FullColon);
    var entries := ParseAll(word, lines);
    forall j | 0 <= j < |entries|
      ensures entries[j].None?
    {
      var raw := lines[j];
      StripIsStripped(raw);
      assert forall x :: x in Strip(raw) ==> x in raw;
    }
    CollectNothing(fields, entries);
  }

  lemma {:induction false} CollectNothing(fields: seq<string>, entries: seq<Option<Entry>>)
    requires forall j :: 0 <= j < |entries| ==> entries[j].None?
    ensures Collect(fields, entries) == map[]
    decreases |entries|
  {
    if entries != [] {
      CollectNothing(fields, entries[..|entries| - 1]);
    }
  }

  /**
   * The field map of a row task: the parsed reply when the service answered,
   * and nothing when the call failed (mac_ai_cleaner.py:521-523) or the wait
   * for it timed out.
   */
  function RowResult(word: WordClass, fields: seq<string>, reply: ApiReply): (m: map<string, string>)
    ensures !reply.Answer? ==> m == map[]
  {
    match reply
    case Answer(text) => ParseReplySpec(word, fields, text)
    case _ => map[]
  }

  /** A row task only ever fills schema fields. */
  lemma RowResultInSchema(word: WordClass, fields: seq<string>, reply: ApiReply)
    ensures forall k :: k in RowResult(word, fields, reply) ==> k in fields
  {
  }
}
