/**
  The terminal chatbot (rag_chatbot.py): `rag_pipeline`, which answers one
  question from the retrieved chunks, and the command loop of
  `chat_interface`, which reads lines, keeps the number `k` of chunks to
  retrieve, and hands every other non-empty line to the pipeline.

  The vector store's similarity search is the parameter `retrieve`, and the
  language model is an optional function from (context, question) to the
  answer text; the prompt template itself is not modelled. Console output is
  not modelled: a session is described by the queries it sends.
*/
module Chatbot {
  import opened Options
  import opened Text
  import opened Seqs
  import opened Docs
  import opened Context

  const DefaultK: nat := 3
  const MaxK: nat := 8

  /** The source shown for a chunk without a `source` entry. */
  const UnknownSource: string := "Unknown"

  const NotAvailable: string := "This information is not available in my current medical document base."
  const SimulationBanner: string := "\U{1F539} SIMULATION MODE \U{1F539}\n\n"

  /** Characters of each chunk shown in simulation mode. */
  const PreviewChars: nat := 300

  /** The simulation-mode text for the chunks `docs`: each one's first `PreviewChars`
      characters followed by a blank line. */
  function Previews(docs: seq<Document>): string
    decreases |docs|
  {
    if |docs| == 0 then ""
    else Previews(docs[..|docs| - 1]) + Take(docs[|docs| - 1].content, PreviewChars) + "\n\n"
  }

  /** `rag_pipeline`: retrieve `k` chunks for the question; with none, a fixed refusal and
      no sources; otherwise the sources of the chunks, and either the model's answer to
      the numbered context or, without a model, the banner and a preview of every chunk. */
  method RagPipeline(retrieve: (string, nat) -> seq<Document>, llm: Llm, question: string, k: nat)
    returns (answer: string, sources: seq<Value>)
    ensures var docs := retrieve(question, k);
      && (|docs| == 0 ==> answer == NotAvailable && sources == [])
      && (|docs| > 0 ==> sources == Sources(docs, UnknownSource))
      && (|docs| > 0 && llm.NoLlm? ==> answer == SimulationBanner + Previews(docs))
      && (|docs| > 0 && llm.Model? ==> answer == llm.ask(BuildContext(docs, UnknownSource), question))
  {
    var docs := retrieve(question, k);
    if |docs| == 0 {
      return NotAvailable, [];
    }
    var context;
    context, sources := Collect(docs, UnknownSource);
    if llm.NoLlm? {
      answer := Simulate(docs);
    } else {
      answer := llm.ask(context, question);
    }
  }

  /** The answer without a model: the banner, then the previews in retrieval order. */
  method Simulate(docs: seq<Document>) returns (answer: string)
    ensures answer == SimulationBanner + Previews(docs)
  {
    answer := SimulationBanner;
    for i := 0 to |docs|
      invariant answer == SimulationBanner + Previews(docs[..i])
    {
      PreviewsStep(docs, i);
      answer := answer + Take(docs[i].content, PreviewChars) + "\n\n";
    }
    assert docs[..|docs|] == docs;
  }

  lemma PreviewsStep(docs: seq<Document>, i: nat)
    requires i < |docs|
    ensures Previews(docs[..i + 1]) == Previews(docs[..i]) + Take(docs[i].content, PreviewChars) + "\n\n"
  {
    assert docs[..i + 1][..i] == docs[..i];
  }

  /** The simulation text is one preview per chunk: it holds at most `PreviewChars` + 2
      characters per chunk, and it ends with the first `PreviewChars` characters of the
      last chunk's text (all of it when shorter), which are a prefix of that text. */
  lemma {:induction false} PreviewsBounded(docs: seq<Document>)
    ensures |Previews(docs)| <= (PreviewChars + 2) * |docs|
    ensures |docs| > 0 ==> var c := docs[|docs| - 1].content;
      && Previews(docs) == Previews(docs[..|docs| - 1]) + Take(c, PreviewChars) + "\n\n"
      && StartsWith(c, Take(c, PreviewChars))
      && |Take(c, PreviewChars)| == if |c| < PreviewChars then |c| else PreviewChars
    decreases |docs|
  {
    if |docs| > 0 {
      var n := |docs| - 1;
      PreviewsBounded(docs[..n]);
      PreviewsStep(docs, n);
      assert docs[..n + 1] == docs;
    }
  }

  // ---------------------------------------------------------------------------
  // The command loop of `chat_interface`
  // ---------------------------------------------------------------------------

  /** What one input line asks for. */
  datatype Command = Skip | Quit | SetK(k: nat) | Usage | Ask(question: string)

  /** `max(1, min(n, MAX_K))`. */
  function Clamp(n: int): (k: nat)
    ensures 1 <= k <= MaxK
    ensures 1 <= n <= MaxK ==> k == n
    ensures n < 1 ==> k == 1
    ensures n > MaxK ==> k == MaxK
  {
    if n < 1 then 1 else if n > MaxK then MaxK else n
  }

  /** How the loop reads one line: it is stripped; a blank line is skipped; `/quit` in
      any letter case ends the session; a line starting with `/k` sets `k` from its
      second word when that word is an integer (clamped to 1..MaxK), and prints the
      usage otherwise; anything else is a question. */
  function Interpret(line: string): (c: Command)
    ensures c.Skip? <==> AllSpace(line)
    ensures c.Quit? <==> !AllSpace(line) && Lower(Strip(line)) == "/quit"
    ensures c.Ask? <==> IsQuestion(Strip(line))
    ensures c.Ask? ==> c.question == Strip(line)
    ensures c.SetK? ==> 1 <= c.k <= MaxK
  {
    StripIdempotent(line);
    var input := Strip(line);
    if input == [] then Skip
    else if Lower(input) == "/quit" then Quit
    else if StartsWith(Lower(input), "/k") then
      var ws := Words(input);
      if |ws| >= 2 && ParseInt(ws[1]).Some? then SetK(Clamp(ParseInt(ws[1]).value)) else Usage
    else Ask(input)
  }

  /** A question sent to the pipeline with the `k` in force. */
  datatype Query = Query(question: string, k: nat)

  /** The queries of a session that reads `lines` with `k` in force; it stops at `/quit`
      or when the lines run out. */
  function Run(k: nat, lines: seq<string>): (qs: seq<Query>)
    ensures |qs| <= |lines|
    decreases |lines|
  {
    if |lines| == 0 then []
    else
      match Interpret(lines[0])
      case Skip => Run(k, lines[1..])
      case Usage => Run(k, lines[1..])
      case Quit => []
      case SetK(n) => Run(n, lines[1..])
      case Ask(q) => [Query(q, k)] + Run(k, lines[1..])
  }

  /** `chat_interface` starts with `DEFAULT_K`. */
  function Session(lines: seq<string>): seq<Query> {
    Run(DefaultK, lines)
  }

  /** Every query of a session retrieves between 1 and `MaxK` chunks. */
  lemma {:induction false} RunKeepsKInRange(k: nat, lines: seq<string>)
    requires 1 <= k <= MaxK
    ensures forall i :: 0 <= i < |Run(k, lines)| ==> 1 <= Run(k, lines)[i].k <= MaxK
    decreases |lines|
  {
    if |lines| > 0 {
      match Interpret(lines[0])
      case Skip => RunKeepsKInRange(k, lines[1..]);
      case Usage => RunKeepsKInRange(k, lines[1..]);
      case Quit =>
      case SetK(n) => RunKeepsKInRange(n, lines[1..]);
      case Ask(q) =>
        RunKeepsKInRange(k, lines[1..]);
        QueriesCons(Query(q, k), Run(k, lines[1..]));
    }
  }

  lemma QueriesCons(q: Query, qs: seq<Query>)
    requires 1 <= q.k <= MaxK
    requires forall i :: 0 <= i < |qs| ==> 1 <= qs[i].k <= MaxK
    ensures forall i :: 0 <= i < |[q] + qs| ==> 1 <= ([q] + qs)[i].k <= MaxK
  {
    assert forall i :: 1 <= i < |[q] + qs| ==> ([q] + qs)[i] == qs[i - 1];
  }

  lemma SessionKeepsKInRange(lines: seq<string>)
    ensures forall i :: 0 <= i < |Session(lines)| ==> 1 <= Session(lines)[i].k <= MaxK
  {
    RunKeepsKInRange(DefaultK, lines);
  }

  /** A line the loop passes to the pipeline: stripped, not blank, and not a command. */
  predicate IsQuestion(q: string) {
    |q| > 0 && Trimmed(q) && Lower(q) != "/quit" && !StartsWith(Lower(q), "/k")
  }

  lemma AskIsQuestion(line: string)
    requires Interpret(line).Ask?
    ensures IsQuestion(Interpret(line).question)
  {
    StripIdempotent(line);
  }

  /** Every question sent to the pipeline is stripped, not blank, and not a command. */
  lemma {:induction false} QueriesAreQuestions(k: nat, lines: seq<string>)
    ensures forall i :: 0 <= i < |Run(k, lines)| ==> IsQuestion(Run(k, lines)[i].question)
    decreases |lines|
  {
    if |lines| > 0 {
      var tail := lines[1..];
      match Interpret(lines[0])
      case Skip => QueriesAreQuestions(k, tail);
      case Usage => QueriesAreQuestions(k, tail);
      case Quit =>
      case SetK(n) => QueriesAreQuestions(n, tail);
      case Ask(q) =>
        QueriesAreQuestions(k, tail);
        AskIsQuestion(lines[0]);
        AllQuestionsCons(Query(q, k), Run(k, tail));
    }
  }

  lemma AllQuestionsCons(q: Query, qs: seq<Query>)
    requires IsQuestion(q.question)
    requires forall i :: 0 <= i < |qs| ==> IsQuestion(qs[i].question)
    ensures forall i :: 0 <= i < |[q] + qs| ==> IsQuestion(([q] + qs)[i].question)
  {
    assert forall i :: 1 <= i < |[q] + qs| ==> ([q] + qs)[i] == qs[i - 1];
  }

  /** The position of the first line that ends the session, or the number of lines
      when none does. */
  function FirstQuit(lines: seq<string>): (n: nat)
    ensures n <= |lines|
    ensures forall i :: 0 <= i < n ==> !Interpret(lines[i]).Quit?
    ensures n < |lines| ==> Interpret(lines[n]).Quit?
    decreases |lines|
  {
    if |lines| == 0 || Interpret(lines[0]).Quit? then 0 else 1 + FirstQuit(lines[1..])
  }

  predicate AsksQuestion(line: string) {
    Interpret(line).Ask?
  }

  function QuestionsOf(qs: seq<Query>): (r: seq<string>)
    ensures |r| == |qs|
    ensures forall i :: 0 <= i < |qs| ==> r[i] == qs[i].question
  {
    seq(|qs|, i requires 0 <= i < |qs| => qs[i].question)
  }

  function StripAll(lines: seq<string>): (r: seq<string>)
    ensures |r| == |lines|
    ensures forall i :: 0 <= i < |lines| ==> r[i] == Strip(lines[i])
  {
    seq(|lines|, i requires 0 <= i < |lines| => Strip(lines[i]))
  }

  /** Where the questions of a session come from: they are the lines before the first
      `/quit` that the loop reads as questions, stripped, in input order, each once. */
  lemma {:induction false} RunAsksInputQuestions(k: nat, lines: seq<string>)
    ensures QuestionsOf(Run(k, lines)) == StripAll(Filter(lines[..FirstQuit(lines)], AsksQuestion))
    decreases |lines|
  {
    if |lines| > 0 {
      var tail := lines[1..];
      match Interpret(lines[0])
      case Quit =>
      case Skip =>
        RunAsksInputQuestions(k, tail);
        BeforeQuitStep(lines);
      case Usage =>
        RunAsksInputQuestions(k, tail);
        BeforeQuitStep(lines);
      case SetK(n) =>
        RunAsksInputQuestions(n, tail);
        RunQuestionsIgnoreK(k, n, tail);
        BeforeQuitStep(lines);
      case Ask(q) =>
        RunAsksInputQuestions(k, tail);
        BeforeQuitStep(lines);
        QuestionsCons(Query(q, k), Run(k, tail));
    }
  }

  /** The questions of a session do not depend on the `k` it starts with. */
  lemma {:induction false} RunQuestionsIgnoreK(k: nat, n: nat, lines: seq<string>)
    ensures QuestionsOf(Run(k, lines)) == QuestionsOf(Run(n, lines))
    decreases |lines|
  {
    if |lines| > 0 {
      var tail := lines[1..];
      match Interpret(lines[0])
      case Quit =>
      case Skip => RunQuestionsIgnoreK(k, n, tail);
      case Usage => RunQuestionsIgnoreK(k, n, tail);
      case SetK(m) =>
      case Ask(q) =>
        RunQuestionsIgnoreK(k, n, tail);
        QuestionsCons(Query(q, k), Run(k, tail));
        QuestionsCons(Query(q, n), Run(n, tail));
    }
  }

  lemma QuestionsCons(q: Query, qs: seq<Query>)
    ensures QuestionsOf([q] + qs) == [q.question] + QuestionsOf(qs)
  {
    assert forall i :: 1 <= i < |[q] + qs| ==> ([q] + qs)[i] == qs[i - 1];
  }

  /** A first line that does not end the session is the first line of the part read. */
  lemma BeforeQuitStep(lines: seq<string>)
    requires |lines| > 0 && !Interpret(lines[0]).Quit?
    ensures StripAll(Filter(lines[..FirstQuit(lines)], AsksQuestion)) ==
      (if AsksQuestion(lines[0]) then [Strip(lines[0])] else []) +
      StripAll(Filter(lines[1..][..FirstQuit(lines[1..])], AsksQuestion))
  {
    var m := FirstQuit(lines[1..]);
    FirstQuitStep(lines);
    PrefixCons(lines, m);
    StripFilterCons(lines[..1 + m], AsksQuestion);
  }

  lemma FirstQuitStep(lines: seq<string>)
    requires |lines| > 0 && !Interpret(lines[0]).Quit?
    ensures FirstQuit(lines) == 1 + FirstQuit(lines[1..])
  {
  }

  lemma PrefixCons<T>(s: seq<T>, m: nat)
    requires m < |s|
    ensures s[..1 + m][0] == s[0] && s[..1 + m][1..] == s[1..][..m]
  {
  }

  lemma StripFilterCons(s: seq<string>, p: string -> bool)
    requires |s| > 0
    ensures StripAll(Filter(s, p)) == (if p(s[0]) then [Strip(s[0])] else []) + StripAll(Filter(s[1..], p))
  {
    FilterCons(s, p);
    if p(s[0]) {
      StripFilterKept(s, p);
    } else {
      assert [] + StripAll(Filter(s[1..], p)) == StripAll(Filter(s[1..], p));
    }
  }

  lemma StripFilterKept(s: seq<string>, p: string -> bool)
    requires |s| > 0 && Filter(s, p) == [s[0]] + Filter(s[1..], p)
    ensures StripAll(Filter(s, p)) == [Strip(s[0])] + StripAll(Filter(s[1..], p))
  {
    StripAllCons(s[0], Filter(s[1..], p));
  }

  lemma StripAllCons(x: string, b: seq<string>)
    ensures StripAll([x] + b) == [Strip(x)] + StripAll(b)
  {
    var l, r := StripAll([x] + b), [Strip(x)] + StripAll(b);
    forall i | 0 <= i < |l| ensures l[i] == r[i] {
      if i > 0 {
        assert ([x] + b)[i] == b[i - 1];
      }
    }
  }

  /** `/quit` ends the session: nothing after it is asked. */
  lemma QuitEndsSession(k: nat, quit: string, rest: seq<string>)
    requires Interpret(quit) == Quit
    ensures Run(k, [quit] + rest) == []
  {
  }

  /** A blank line or a malformed `/k` command leaves `k` as it was. */
  lemma SkipAndUsageKeepK(k: nat, line: string, rest: seq<string>)
    requires Interpret(line).Skip? || Interpret(line).Usage?
    ensures Run(k, [line] + rest) == Run(k, rest)
  {
    assert ([line] + rest)[1..] == rest;
  }

  /** `/quit` is recognised in any letter case and with any surrounding whitespace. */
  lemma QuitAnyCase(line: string)
    requires Lower(Strip(line)) == "/quit"
    ensures Interpret(line) == Quit
  {
    assert |Strip(line)| == 5;
  }

  /** A line starting with `/k` (in any letter case) whose second word is missing or is
      not an integer is a usage error. */
  lemma MalformedKIsUsage(line: string)
    requires StartsWith(Lower(Strip(line)), "/k")
    requires var ws := Words(Strip(line)); |ws| < 2 || ParseInt(ws[1]).None?
    ensures Interpret(line) == Usage
  {
    KLine(line);
  }

  /** A line starting with `/k` whose second word is the integer `v` sets `k` to `v`
      clamped to 1..MaxK. */
  lemma WellFormedKSetsK(line: string, v: int)
    requires StartsWith(Lower(Strip(line)), "/k")
    requires var ws := Words(Strip(line)); |ws| >= 2 && ParseInt(ws[1]) == Some(v)
    ensures Interpret(line) == SetK(Clamp(v))
  {
    KLine(line);
  }

  /** A line starting with `/k` is neither blank nor `/quit`. */
  lemma KLine(line: string)
    requires StartsWith(Lower(Strip(line)), "/k")
    ensures !AllSpace(line) && Lower(Strip(line)) != "/quit"
  {
    var l := Lower(Strip(line));
    assert l[1] == l[..2][1] == 'k';
    assert "/quit"[1] == 'q';
  }

  /** `/k` followed by one token: the token's integer value, clamped, when it has one
      (`5`, `-5`, `+5`, `05`, `1_0`, ...), and a usage error otherwise. */
  lemma KWithToken(t: string)
    requires |t| > 0 && NoSpace(t)
    ensures Interpret("/k " + t) == if ParseInt(t).Some? then SetK(Clamp(ParseInt(t).value)) else Usage
  {
    var line := "/k " + t;
    assert line[|line| - 1] == t[|t| - 1];
    assert Trimmed(line);
    StripTrimmed(line);
    assert Lower(line)[..2] == "/k";
    assert Join(["/k", t], " ") == line;
    WordsOfJoin(["/k", t]);
  }

  /** `/k N` followed by a question sends that question with `N` clamped to 1..MaxK. */
  lemma SetKThenAsk(k: nat, n: int, line: string, rest: seq<string>)
    requires Interpret(line).Ask?
    ensures Run(k, ["/k " + IntToString(n), line] + rest) ==
      [Query(Interpret(line).question, Clamp(n))] + Run(Clamp(n), rest)
  {
    SetKCommand(n);
    RunSetKThenAsk(k, Clamp(n), "/k " + IntToString(n), line, rest);
  }

  lemma RunSetKThenAsk(k: nat, n: nat, first: string, line: string, rest: seq<string>)
    requires Interpret(first) == SetK(n) && Interpret(line).Ask?
    ensures Run(k, [first, line] + rest) == [Query(Interpret(line).question, n)] + Run(n, rest)
  {
    assert [first, line] + rest == [first] + ([line] + rest);
    RunAfterSetK(k, n, first, [line] + rest);
    RunAfterAsk(n, line, rest);
  }

  lemma RunAfterSetK(k: nat, n: nat, first: string, tail: seq<string>)
    requires Interpret(first) == SetK(n)
    ensures Run(k, [first] + tail) == Run(n, tail)
  {
    assert ([first] + tail)[1..] == tail;
  }

  lemma RunAfterAsk(k: nat, line: string, tail: seq<string>)
    requires Interpret(line).Ask?
    ensures Run(k, [line] + tail) == [Query(Interpret(line).question, k)] + Run(k, tail)
  {
    assert ([line] + tail)[1..] == tail;
  }

  /** The command `/k N` for any integer `N` written as `str(N)` is read back as `N`,
      clamped. */
  lemma SetKCommand(n: int)
    ensures Interpret("/k " + IntToString(n)) == SetK(Clamp(n))
  {
    var d := IntToString(n);
    assert NoSpace(d) by {
      var a := NatToString(if n >= 0 then n else -n);
      assert forall i :: 0 <= i < |a| ==> !IsSpace(a[i]);
      if n < 0 {
        assert forall i :: 1 <= i < |d| ==> d[i] == a[i - 1];
      }
    }
    ParseIntOfIntToString(n);
    KWithToken(d);
  }
}
