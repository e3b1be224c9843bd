/**
 * What one run of the app does after the inputs are read: pick a branch
 * from the uploaded column and the typed name, summarise the companies
 * with the remote model, and build the two-column table that is exported.
 */
module App {
  import opened Wrappers
  import opened Normalizer
  import opened Service

  // ---------------------------------------------------------------------
  // Branch selection.
  // ---------------------------------------------------------------------

  /** The three ways the submit handler can go. */
  datatype Branch = Batch | Single | Halt

  /**
   * Which branch a submit takes: the file's column when a file is uploaded
   * and no name is typed; the typed name whenever it is not empty, even
   * with a file uploaded; otherwise a halt with a message.
   */
  function SelectBranch(uploaded: bool, typedName: string): (b: Branch)
    ensures b == Batch <==> uploaded && typedName == ""
    ensures b == Single <==> typedName != ""
    ensures b == Halt <==> !uploaded && typedName == ""
  {
    if uploaded && typedName == "" then Batch
    else if typedName != "" then Single
    else Halt
  }

  /** The message of the exception `1.0 / 0` raises. */
  const DivisionByZero: string := "float division by zero"

  /** The message shown before the script stops when there is nothing to summarise. */
  const EnterPromptMessage: string := "Please enter a text prompt to proceed."

  // ---------------------------------------------------------------------
  // The batch loop, as a specification.
  // ---------------------------------------------------------------------

  /**
   * What the batch path leaves behind: the two parallel lists, how many
   * calls reached the model, and the message of the exception that ended
   * the loop, if one did.
   */
  datatype BatchResult = BatchResult(names: seq<string>, summaries: seq<string>, calls: nat, error: Option<string>)

  /**
   * The loop over the companies when the i-th one is answered by
   * `replies[i]`: each success appends the company and its normalised
   * summary; the first failure ends the loop.
   */
  function Accumulate(companies: seq<string>, replies: seq<Reply>): (b: BatchResult)
    requires |replies| == |companies|
    ensures |b.names| == |b.summaries| <= |companies|
    ensures b.names == companies[..|b.names|]
    ensures b.calls == |b.names| + (if b.error.Some? then 1 else 0)
    ensures b.calls <= |companies|
  {
    if companies == [] then BatchResult([], [], 0, None)
    else match replies[0]
      case Failed(e) => BatchResult([], [], 1, Some(e))
      case Ok(t) =>
        var rest := Accumulate(companies[1..], replies[1..]);
        BatchResult([companies[0]] + rest.names, [ToMarkdown(t)] + rest.summaries, rest.calls + 1, rest.error)
  }

  /**
   * The batch path: on an empty column the progress increment divides by
   * zero before any call, and the exception is caught like any other.
   */
  function BatchSpec(companies: seq<string>, replies: seq<Reply>): BatchResult
    requires |replies| == |companies|
  {
    if |companies| == 0 then BatchResult([], [], 0, Some(DivisionByZero))
    else Accumulate(companies, replies)
  }

  /** When every call succeeds, all companies are kept in order with their normalised replies. */
  lemma {:induction false} AccumulateAllSucceed(companies: seq<string>, replies: seq<Reply>)
    requires |replies| == |companies|
    requires forall i :: 0 <= i < |replies| ==> replies[i].Ok?
    ensures var b := Accumulate(companies, replies);
      && b.names == companies
      && |b.summaries| == |companies|
      && (forall i :: 0 <= i < |companies| ==> b.summaries[i] == ToMarkdown(replies[i].text))
      && b.calls == |companies|
      && b.error == None
  {
    if companies != [] {
      AccumulateAllSucceed(companies[1..], replies[1..]);
      var rest := Accumulate(companies[1..], replies[1..]);
      assert forall i :: 0 < i < |companies| ==> replies[i] == replies[1..][i - 1];
      assert Accumulate(companies, replies).summaries == [ToMarkdown(replies[0].text)] + rest.summaries;
    }
  }

  /**
   * When the call for item k is the first to fail, the lists hold exactly
   * the first k companies and their summaries, k + 1 calls were made (none
   * for the items after k), and the error is the one of call k.
   */
  lemma {:induction false} AccumulateStopsAtFailure(companies: seq<string>, replies: seq<Reply>, k: nat)
    requires |replies| == |companies|
    requires k < |companies| && replies[k].Failed?
    requires forall i :: 0 <= i < k ==> replies[i].Ok?
    ensures var b := Accumulate(companies, replies);
      && b.names == companies[..k]
      && |b.summaries| == k
      && (forall i :: 0 <= i < k ==> b.summaries[i] == ToMarkdown(replies[i].text))
      && b.calls == k + 1
      && b.error == Some(replies[k].error)
  {
    if k > 0 {
      AccumulateStopsAtFailure(companies[1..], replies[1..], k - 1);
      var rest := Accumulate(companies[1..], replies[1..]);
      assert forall i :: 0 < i < |companies| ==> replies[i] == replies[1..][i - 1];
      assert Accumulate(companies, replies).summaries == [ToMarkdown(replies[0].text)] + rest.summaries;
      assert companies[..k] == [companies[0]] + companies[1..][..k - 1];
    }
  }

  /** The loop ends without an error exactly when every reply is a success. */
  lemma {:induction false} AccumulateCompletes(companies: seq<string>, replies: seq<Reply>)
    requires |replies| == |companies|
    ensures Accumulate(companies, replies).error == None <==>
            forall i :: 0 <= i < |replies| ==> replies[i].Ok?
  {
    if companies != [] {
      AccumulateCompletes(companies[1..], replies[1..]);
      assert forall i :: 0 < i < |companies| ==> replies[i] == replies[1..][i - 1];
    }
  }

  /**
   * An empty column makes no call, keeps nothing and reports the division by
   * zero; otherwise the batch ends without an error exactly when every call succeeds.
   */
  lemma BatchSpecOutcome(companies: seq<string>, replies: seq<Reply>)
    requires |replies| == |companies|
    ensures var b := BatchSpec(companies, replies);
      companies == [] ==> b.calls == 0 && b.names == [] && b.summaries == [] && b.error == Some(DivisionByZero)
    ensures BatchSpec(companies, replies).error == None <==>
            companies != [] && forall i :: 0 <= i < |replies| ==> replies[i].Ok?
  {
    AccumulateCompletes(companies, replies);
  }

  /** The reply the model gives to each company of a batch that starts at call `start`. */
  function Replies(respond: (nat, string) -> Reply, start: nat, companies: seq<string>): seq<Reply>
  {
    seq(|companies|, i requires 0 <= i < |companies| => respond(start + i, Prompt(companies[i])))
  }

  // ---------------------------------------------------------------------
  // The batch loop itself.
  // ---------------------------------------------------------------------

  /**
   * The batch path: for each company, in order, ask the model, normalise
   * the reply and append both to the two lists; the first failure (or the
   * division by zero on an empty column) ends the path with its message.
   */
  method SummarizeBatch(companies: seq<string>, model: GenerativeModel)
    returns (names: seq<string>, summaries: seq<string>, error: Option<string>)
    modifies model
    ensures var b := BatchSpec(companies, Replies(model.respond, |old(model.prompts)|, companies));
      && names == b.names && summaries == b.summaries && error == b.error
      && model.prompts == old(model.prompts) + Prompts(companies[..b.calls])
  {
    names, summaries, error := [], [], None;
    ghost var start := |model.prompts|;
    ghost var replies := Replies(model.respond, start, companies);
    if |companies| == 0 {
      error := Some(DivisionByZero);
      assert companies[..0] == [] && Prompts([]) == [];
      return;
    }
    var i := 0;
    while i < |companies|
      invariant 0 <= i <= |companies|
      invariant model.prompts == old(model.prompts) + Prompts(companies[..i])
      invariant |model.prompts| == start + i
      invariant names == companies[..i]
      invariant |summaries| == i
      invariant forall j :: 0 <= j < i ==> replies[j].Ok? && summaries[j] == ToMarkdown(replies[j].text)
    {
      var company := companies[i];
      LogGrows(old(model.prompts), companies, i);
      var reply := model.GenerateContent(Prompt(company));
      assert reply == replies[i];
      if reply.Failed? {
        error := Some(reply.error);
        BatchEndsAtFailure(companies, replies, i, summaries);
        return;
      }
      names := names + [company];
      summaries := summaries + [ToMarkdown(reply.text)];
      i := i + 1;
    }
    BatchEndsComplete(companies, replies, summaries);
  }

  /** The state the loop leaves at its first failure is the one the specification describes. */
  lemma BatchEndsAtFailure(companies: seq<string>, replies: seq<Reply>, k: nat, summaries: seq<string>)
    requires |replies| == |companies|
    requires k < |companies| && replies[k].Failed?
    requires |summaries| == k
    requires forall j :: 0 <= j < k ==> replies[j].Ok? && summaries[j] == ToMarkdown(replies[j].text)
    ensures BatchSpec(companies, replies) == BatchResult(companies[..k], summaries, k + 1, Some(replies[k].error))
  {
    AccumulateStopsAtFailure(companies, replies, k);
  }

  /** The state the loop leaves when every call succeeded is the one the specification describes. */
  lemma BatchEndsComplete(companies: seq<string>, replies: seq<Reply>, summaries: seq<string>)
    requires |replies| == |companies| > 0
    requires |summaries| == |companies|
    requires forall j :: 0 <= j < |companies| ==> replies[j].Ok? && summaries[j] == ToMarkdown(replies[j].text)
    ensures BatchSpec(companies, replies) == BatchResult(companies, summaries, |companies|, None)
  {
    AccumulateAllSucceed(companies, replies);
  }

  /** Logging the prompt for item i extends the log of the items before it by one. */
  lemma LogGrows(log: seq<string>, companies: seq<string>, i: nat)
    requires i < |companies|
    ensures log + Prompts(companies[..i]) + [Prompt(companies[i])] == log + Prompts(companies[..i + 1])
  {
    assert companies[..i + 1] == companies[..i] + [companies[i]];
    assert Prompts(companies[..i + 1]) == Prompts(companies[..i]) + [Prompt(companies[i])];
  }

  // ---------------------------------------------------------------------
  // The exported table.
  // ---------------------------------------------------------------------

  /** A row of the exported table: a company name and its summary. */
  type Row = (string, string)

  /** Python's `zip`: pairs up the two lists, as long as the shorter one. */
  function Zip(names: seq<string>, summaries: seq<string>): (rows: seq<Row>)
    ensures |rows| == if |names| <= |summaries| then |names| else |summaries|
    ensures forall i :: 0 <= i < |rows| ==> rows[i] == (names[i], summaries[i])
  {
    if names == [] || summaries == [] then []
    else [(names[0], summaries[0])] + Zip(names[1..], summaries[1..])
  }

  /** The "Company Name" column of a table. */
  function NameColumn(rows: seq<Row>): seq<string>
  {
    seq(|rows|, i requires 0 <= i < |rows| => rows[i].0)
  }

  /** The "Summary" column of a table. */
  function SummaryColumn(rows: seq<Row>): seq<string>
  {
    seq(|rows|, i requires 0 <= i < |rows| => rows[i].1)
  }

  /** Zipping lists of equal length loses nothing: its columns are the two lists. */
  lemma ZipColumns(names: seq<string>, summaries: seq<string>)
    requires |names| == |summaries|
    ensures NameColumn(Zip(names, summaries)) == names
    ensures SummaryColumn(Zip(names, summaries)) == summaries
  {
    var rows := Zip(names, summaries);
    assert forall i :: 0 <= i < |rows| ==> NameColumn(rows)[i] == names[i];
    assert forall i :: 0 <= i < |rows| ==> SummaryColumn(rows)[i] == summaries[i];
  }

  /** The column headers of the exported table. */
  const Columns: seq<string> := ["Company Name", "Summary"]

  /** The data frame that is written to the spreadsheet. */
  datatype Table = Table(columns: seq<string>, rows: seq<Row>)

  /** The table built from the two lists. */
  function SummaryTable(names: seq<string>, summaries: seq<string>): Table
  {
    Table(Columns, Zip(names, summaries))
  }

  // ---------------------------------------------------------------------
  // One run of the script.
  // ---------------------------------------------------------------------

  /**
   * How a run ends: the table is exported (with the message of a caught
   * exception shown, if any); the script stops with a message; or an
   * exception escapes and nothing after it runs.
   */
  datatype Outcome =
    | Exported(table: Table, shownError: Option<string>)
    | Halted(message: string)
    | Crashed(error: string)

  /**
   * The script from the submit button on. `upload` is the selected column
   * of the uploaded workbook, or None when no file is uploaded.
   */
  method Run(submit: bool, upload: Option<seq<string>>, typedName: string, model: GenerativeModel)
    returns (out: Outcome)
    modifies model
    ensures !submit ==>
      out == Exported(SummaryTable([], []), None) && model.prompts == old(model.prompts)
    ensures submit && SelectBranch(upload.Some?, typedName) == Halt ==>
      out == Halted(EnterPromptMessage) && model.prompts == old(model.prompts)
    ensures submit && SelectBranch(upload.Some?, typedName) == Single ==>
      var reply := model.respond(|old(model.prompts)|, Prompt(typedName));
      && model.prompts == old(model.prompts) + [Prompt(typedName)]
      && out == (if reply.Ok? then Exported(SummaryTable([typedName], [ToMarkdown(reply.text)]), None)
                 else Crashed(reply.error))
    ensures submit && SelectBranch(upload.Some?, typedName) == Batch ==>
      var b := BatchSpec(upload.value, Replies(model.respond, |old(model.prompts)|, upload.value));
      && model.prompts == old(model.prompts) + Prompts(upload.value[..b.calls])
      && out == Exported(SummaryTable(b.names, b.summaries), b.error)
  {
    var names: seq<string> := [];
    var summaries: seq<string> := [];
    var shown: Option<string> := None;
    if submit {
      match SelectBranch(upload.Some?, typedName)
      case Batch =>
        names, summaries, shown := SummarizeBatch(upload.value, model);
      case Single =>
        var reply := model.GenerateContent(Prompt(typedName));
        if reply.Failed? {
          return Crashed(reply.error);
        }
        names := names + [typedName];
        summaries := summaries + [ToMarkdown(reply.text)];
      case Halt =>
        return Halted(EnterPromptMessage);
    }
    out := Exported(SummaryTable(names, summaries), shown);
  }

  /**
   * The exported table has the two fixed columns and one row per kept
   * company, the i-th row pairing the i-th company with the i-th summary.
   */
  lemma ExportedTable(names: seq<string>, summaries: seq<string>)
    requires |names| == |summaries|
    ensures var t := SummaryTable(names, summaries);
      && t.columns == ["Company Name", "Summary"]
      && |t.rows| == |names|
      && NameColumn(t.rows) == names
      && SummaryColumn(t.rows) == summaries
  {
    ZipColumns(names, summaries);
  }
}
