/**
 Token usage picked out of a provider's event stream, chunk by chunk. Lines end with LF; the text
 after the last LF waits in a buffer for the next chunk. Only `data: ` lines with a JSON payload matter.

 Chunks are given as text. Parsing JSON and turning a string into an integer are parameters.
 */
module SseUsage {
  import opened Basics

  datatype Value =
    | Null
    | Bool(b: bool)
    | Int(n: int)
    | Float(x: real)
    | Text(s: string)
    | List(items: seq<Value>)
    | Object(members: map<string, Value>)

  /** Library functions: None is the exception that they raise. */
  datatype Library = Library(loads: string -> Option<Value>, intOfText: string -> Option<int>)

  datatype Usage = Usage(prompt: int, completion: int, total: int)

  const NO_USAGE := Usage(0, 0, 0)

  predicate Truthy(v: Value) {
    match v
    case Null => false
    case Bool(b) => b
    case Int(n) => n != 0
    case Float(x) => x != 0.0
    case Text(s) => s != ""
    case List(items) => items != []
    case Object(members) => members != map[]
  }

  function OrEmpty(v: Value): Value {
    if Truthy(v) then v else Object(map[])
  }

  function GetOr(members: map<string, Value>, key: string, default: Value): Value {
    if key in members then members[key] else default
  }

  /** `int(v)` */
  function ToInt(lib: Library, v: Value): Option<int> {
    match v
    case Bool(b) => Some(if b then 1 else 0)
    case Int(n) => Some(n)
    case Float(x) => Some(Truncate(x))
    case Text(s) => lib.intOfText(s)
    case _ => None
  }

  // ---------------------------------------------------------------------------------------------
  // One event
  // ---------------------------------------------------------------------------------------------

  /** What an event says: nothing of interest, one of the counts, all three, or it cannot be read. */
  datatype Report = Nothing | Input(tokens: int) | Output(tokens: int) | Totals(usage: Usage) | Broken

  function CountIn(lib: Library, holder: Value, key: string): Option<int> {
    if holder.Object? then ToInt(lib, GetOr(holder.members, key, Int(0))) else None
  }

  function AnthropicReport(lib: Library, data: Value): Report {
    if !data.Object? then Broken
    else
      var kind := GetOr(data.members, "type", Text(""));
      if kind == Text("message_start") then
        var message := OrEmpty(GetOr(data.members, "message", Null));
        if !message.Object? then Broken
        else
          match CountIn(lib, OrEmpty(GetOr(message.members, "usage", Null)), "input_tokens")
          case None => Broken
          case Some(n) => if n == 0 then Nothing else Input(n)
      else if kind == Text("message_delta") then
        match CountIn(lib, OrEmpty(GetOr(data.members, "usage", Null)), "output_tokens")
        case None => Broken
        case Some(n) => if n == 0 then Nothing else Output(n)
      else Nothing
  }

  function GeminiReport(lib: Library, data: Value): Report {
    if !data.Object? then Broken
    else
      var meta := GetOr(data.members, "usageMetadata", Null);
      if !Truthy(meta) then Nothing
      else
        var prompt := CountIn(lib, meta, "promptTokenCount");
        var completion := CountIn(lib, meta, "candidatesTokenCount");
        var total := CountIn(lib, meta, "totalTokenCount");
        if prompt.None? || completion.None? || total.None? then Broken
        else if total.value == 0 then Nothing
        else Totals(Usage(prompt.value, completion.value, total.value))
  }

  /** The value at the end of a path of keys. */
  function At(v: Value, path: seq<string>): Option<Value>
    decreases |path|
  {
    if path == [] then Some(v)
    else if v.Object? && path[0] in v.members then At(v.members[path[0]], path[1..])
    else None
  }

  ghost predicate Says(data: Value, path: seq<string>, v: Value) { At(data, path) == Some(v) }

  /** A JSON value that reads as the number `n`, and one that does not read as a number. */
  ghost predicate Denotes(lib: Library, v: Value, n: int) {
    || v == Int(n) || (v == Bool(true) && n == 1) || (v == Bool(false) && n == 0)
    || (v.Float? && n == Truncate(v.x)) || (v.Text? && lib.intOfText(v.s) == Some(n))
  }

  ghost predicate Unreadable(lib: Library, v: Value) {
    v.Null? || v.List? || v.Object? || (v.Text? && lib.intOfText(v.s) == None)
  }

  /**
   Input tokens stand at message.usage.input_tokens of a message_start, output tokens at
   usage.output_tokens of a message_delta; a count of zero says nothing.
   */
  lemma AnthropicPaths(lib: Library, data: Value, v: Value, n: int)
    requires Denotes(lib, v, n)
    ensures Says(data, ["type"], Text("message_start")) && Says(data, ["message", "usage", "input_tokens"], v) ==>
              AnthropicReport(lib, data) == if n == 0 then Nothing else Input(n)
    ensures Says(data, ["type"], Text("message_delta")) && Says(data, ["usage", "output_tokens"], v) ==>
              AnthropicReport(lib, data) == if n == 0 then Nothing else Output(n)
    ensures (data.Object? && !Says(data, ["type"], Text("message_start"))
             && !Says(data, ["type"], Text("message_delta"))) ==>
              AnthropicReport(lib, data) == Nothing
  {
    Unfold1(data, "type");
    Unfold2(data, "usage", "output_tokens");
    if data.Object? && "message" in data.members {
      Unfold2(data.members["message"], "usage", "input_tokens");
      assert ["message", "usage", "input_tokens"][1..] == ["usage", "input_tokens"];
    }
  }

  /** An event that is not an object, or whose count is not a number, cannot be read. */
  lemma UnreadableBreaks(lib: Library, data: Value, v: Value)
    requires Unreadable(lib, v)
    ensures !data.Object? ==> AnthropicReport(lib, data) == GeminiReport(lib, data) == Broken
    ensures Says(data, ["type"], Text("message_start")) && Says(data, ["message", "usage", "input_tokens"], v) ==>
              AnthropicReport(lib, data) == Broken
    ensures Says(data, ["type"], Text("message_delta")) && Says(data, ["usage", "output_tokens"], v) ==>
              AnthropicReport(lib, data) == Broken
    ensures Says(data, ["usageMetadata", "totalTokenCount"], v) ==> GeminiReport(lib, data) == Broken
  {
    Unfold1(data, "type");
    Unfold2(data, "usage", "output_tokens");
    Unfold2(data, "usageMetadata", "totalTokenCount");
    if data.Object? && "message" in data.members {
      Unfold2(data.members["message"], "usage", "input_tokens");
      assert ["message", "usage", "input_tokens"][1..] == ["usage", "input_tokens"];
    }
  }

  /** What stands for no object: null, false, zero, and what is empty. */
  ghost predicate Empty(v: Value) {
    v in {Null, Bool(false), Int(0), Float(0.0), Text(""), List([]), Object(map[])}
  }

  /** Usage that is empty says nothing, and usage that is neither that nor an object cannot be read. */
  lemma HoldersAreObjects(lib: Library, data: Value, v: Value)
    requires Empty(v) || !v.Object?
    ensures var report := if Empty(v) then Nothing else Broken;
            && (Says(data, ["type"], Text("message_start")) && Says(data, ["message"], v) ==>
                  AnthropicReport(lib, data) == report)
            && (Says(data, ["type"], Text("message_start")) && Says(data, ["message", "usage"], v) ==>
                  AnthropicReport(lib, data) == report)
            && (Says(data, ["type"], Text("message_delta")) && Says(data, ["usage"], v) ==>
                  AnthropicReport(lib, data) == report)
            && (Says(data, ["usageMetadata"], v) ==> GeminiReport(lib, data) == report)
  {
    Unfold1(data, "type");
    Unfold1(data, "message");
    Unfold1(data, "usage");
    Unfold1(data, "usageMetadata");
    Unfold2(data, "message", "usage");
  }

  /** A count that is missing from its object is zero, and says nothing. */
  lemma MissingCountSaysNothing(lib: Library, data: Value, usage: Value, kind: string)
    requires usage.Object? && Says(data, ["type"], Text(kind))
    ensures kind == "message_start" && Says(data, ["message", "usage"], usage) ==>
              "input_tokens" !in usage.members ==> AnthropicReport(lib, data) == Nothing
    ensures kind == "message_delta" && Says(data, ["usage"], usage) ==>
              "output_tokens" !in usage.members ==> AnthropicReport(lib, data) == Nothing
  {
    Unfold1(data, "type");
    Unfold1(data, "usage");
    Unfold2(data, "message", "usage");
  }

  /** So it is for Gemini, whose event then still counts if it has a total. */
  lemma MissingCountsAreZero(lib: Library, data: Value, v: Value, n: int)
    requires Denotes(lib, v, n)
    ensures Says(data, ["usageMetadata"], Object(map["totalTokenCount" := v])) ==>
              GeminiReport(lib, data) == if n == 0 then Nothing else Totals(Usage(0, 0, n))
    ensures Says(data, ["usageMetadata"], Object(map["promptTokenCount" := v])) ==> GeminiReport(lib, data) == Nothing
  {
    Unfold1(data, "usageMetadata");
    var total, prompt := map["totalTokenCount" := v], map["promptTokenCount" := v];
    assert "totalTokenCount" in total && "promptTokenCount" !in total && "candidatesTokenCount" !in total;
    assert "promptTokenCount" in prompt && "totalTokenCount" !in prompt && "candidatesTokenCount" !in prompt;
    assert total != map[] && prompt != map[];
  }

  /** The three counts of Gemini stand under usageMetadata; a total of zero, or no metadata, says nothing. */
  lemma GeminiPaths(lib: Library, data: Value, p: Value, c: Value, t: Value, prompt: int, completion: int, total: int)
    requires Denotes(lib, p, prompt) && Denotes(lib, c, completion) && Denotes(lib, t, total)
    ensures Says(data, ["usageMetadata", "promptTokenCount"], p)
            && Says(data, ["usageMetadata", "candidatesTokenCount"], c)
            && Says(data, ["usageMetadata", "totalTokenCount"], t) ==>
              GeminiReport(lib, data) == if total == 0 then Nothing else Totals(Usage(prompt, completion, total))
    ensures data.Object? && "usageMetadata" !in data.members ==> GeminiReport(lib, data) == Nothing
  {
    Unfold2(data, "usageMetadata", "promptTokenCount");
    Unfold2(data, "usageMetadata", "candidatesTokenCount");
    Unfold2(data, "usageMetadata", "totalTokenCount");
  }

  lemma Unfold1(v: Value, key: string)
    ensures At(v, [key]) == if v.Object? && key in v.members then Some(v.members[key]) else None
  {
    assert [key][1..] == [];
  }

  lemma Unfold2(v: Value, outer: string, inner: string)
    ensures At(v, [outer, inner]) == if v.Object? && outer in v.members then At(v.members[outer], [inner]) else None
    ensures v.Object? && outer in v.members ==>
              At(v.members[outer], [inner]) ==
                if v.members[outer].Object? && inner in v.members[outer].members
                then Some(v.members[outer].members[inner]) else None
  {
    assert [outer, inner][1..] == [inner];
    if v.Object? && outer in v.members { Unfold1(v.members[outer], inner); }
  }

  datatype Dialect = Anthropic | Gemini

  function ReportOf(lib: Library, dialect: Dialect, line: string): Report {
    if !("data: " <= line) then Nothing
    else
      match lib.loads(line[6..])
      case None => Nothing
      case Some(data) => if dialect.Anthropic? then AnthropicReport(lib, data) else GeminiReport(lib, data)
  }

  /**
   Only lines that begin with `data: ` and go on with JSON are events, and the JSON is all that follows;
   every other line says nothing.
   */
  lemma OnlyDataLinesAreEvents(lib: Library, dialect: Dialect, line: string, json: string, data: Value)
    ensures (forall rest: string :: line != "data: " + rest) ==> ReportOf(lib, dialect, line) == Nothing
    ensures lib.loads(json) == None ==> ReportOf(lib, dialect, "data: " + json) == Nothing
    ensures lib.loads(json) == Some(data) ==>
              ReportOf(lib, Anthropic, "data: " + json) == AnthropicReport(lib, data)
              && ReportOf(lib, Gemini, "data: " + json) == GeminiReport(lib, data)
  {
    assert ("data: " + json)[6..] == json;
    if "data: " <= line {
      assert line == "data: " + line[6..];
    }
  }

  function Applied(u: Usage, r: Report): Usage {
    match r
    case Input(n) => Usage(n, u.completion, n + u.completion)
    case Output(n) => Usage(u.prompt, n, u.prompt + n)
    case Totals(usage) => usage
    case _ => u
  }

  // ---------------------------------------------------------------------------------------------
  // Lines
  // ---------------------------------------------------------------------------------------------

  function Prepend(c: char, pieces: seq<string>): (r: seq<string>)
    requires |pieces| > 0
    ensures |r| > 0
  {
    if c == '\n' then [""] + pieces else [[c] + pieces[0]] + pieces[1..]
  }

  /** The pieces between line feeds; the last one is not terminated. */
  function Split(text: string): (pieces: seq<string>)
    ensures |pieces| > 0
    decreases |text|
  {
    if text == "" then [""] else Prepend(text[0], Split(text[1..]))
  }

  function Last(pieces: seq<string>): string
    requires |pieces| > 0
  {
    pieces[|pieces| - 1]
  }

  function Complete(pieces: seq<string>): seq<string>
    requires |pieces| > 0
  {
    pieces[..|pieces| - 1]
  }

  function Join(pieces: seq<string>): string
    requires |pieces| > 0
    decreases |pieces|
  {
    if |pieces| == 1 then pieces[0] else pieces[0] + "\n" + Join(pieces[1..])
  }

  lemma Regroup(c: char, a: string, b: string, d: string)
    ensures [c] + a + b + d == [c] + (a + b + d)
  {
  }

  lemma JoinPrepend(c: char, pieces: seq<string>)
    requires |pieces| > 0
    ensures Join(Prepend(c, pieces)) == [c] + Join(pieces)
  {
    var all, joined := Prepend(c, pieces), Join(pieces);
    if c == '\n' {
      assert all[0] == "" && all[1..] == pieces;
      assert Join(all) == "" + "\n" + joined;
      assert "" + "\n" == [c];
    } else if |pieces| > 1 {
      var rest := Join(pieces[1..]);
      assert all[0] == [c] + pieces[0] && all[1..] == pieces[1..];
      assert Join(all) == [c] + pieces[0] + "\n" + rest;
      Regroup(c, pieces[0], "\n", rest);
    }
  }

  /** Splitting loses nothing, and no piece holds a line feed. */
  lemma {:induction false} SplitJoin(text: string)
    ensures Join(Split(text)) == text
    ensures forall i :: 0 <= i < |Split(text)| ==> '\n' !in Split(text)[i]
    decreases |text|
  {
    if text != "" {
      SplitJoin(text[1..]);
      assert text == [text[0]] + text[1..];
      JoinPrepend(text[0], Split(text[1..]));
    }
  }

  lemma PrependBefore(c: char, front: seq<string>, back: seq<string>)
    requires |front| > 0
    ensures Prepend(c, front + back) == Prepend(c, front) + back
  {
    assert (front + back)[1..] == front[1..] + back;
  }

  lemma PrependLast(c: char, pieces: seq<string>)
    requires |pieces| > 1
    ensures Complete(Prepend(c, pieces)) == Prepend(c, Complete(pieces)) && Last(Prepend(c, pieces)) == Last(pieces)
  {
    assert Complete(pieces)[1..] == pieces[1..][..|pieces| - 2];
  }

  lemma SplitPrepend(c: char, text: string)
    ensures Split([c] + text) == Prepend(c, Split(text))
  {
    assert ([c] + text)[1..] == text;
  }

  /** Splitting can stop anywhere and go on with the last piece. */
  lemma {:induction false} SplitGoesOn(x: string, y: string)
    ensures Split(x + y) == Complete(Split(x)) + Split(Last(Split(x)) + y)
    decreases |x|
  {
    if x == "" {
      assert x + y == y;
    } else {
      var c, pieces := x[0], Split(x[1..]);
      SplitGoesOn(x[1..], y);
      assert x + y == [c] + (x[1..] + y);
      SplitPrepend(c, x[1..] + y);
      var more := Split(Last(pieces) + y);
      if |pieces| > 1 {
        PrependBefore(c, Complete(pieces), more);
        PrependLast(c, pieces);
      } else if c != '\n' {
        assert Complete(pieces) + more == more;
        SplitPrepend(c, pieces[0] + y);
        assert [c] + (pieces[0] + y) == ([c] + pieces[0]) + y;
      }
    }
  }

  // ---------------------------------------------------------------------------------------------
  // Chunks
  // ---------------------------------------------------------------------------------------------

  /** The usage so far, and whether an exception has ended the parsing. */
  datatype Progress = Progress(usage: Usage, raised: bool)

  function Fold(lib: Library, dialect: Dialect, usage: Usage, lines: seq<string>): Progress
    decreases |lines|
  {
    if lines == [] then Progress(usage, false)
    else
      var report := ReportOf(lib, dialect, lines[0]);
      if report.Broken? then Progress(usage, true) else Fold(lib, dialect, Applied(usage, report), lines[1..])
  }

  lemma FoldFrom(lib: Library, dialect: Dialect, usage: Usage, lines: seq<string>, i: nat)
    requires i < |lines|
    ensures var report := ReportOf(lib, dialect, lines[i]);
            Fold(lib, dialect, usage, lines[i..]) ==
              if report.Broken? then Progress(usage, true)
              else Fold(lib, dialect, Applied(usage, report), lines[i + 1..])
  {
    assert lines[i..][1..] == lines[i + 1..];
  }

  /** A stream that is still read has a buffer; an exception ends it. */
  datatype State = Reading(usage: Usage, buffer: string) | Stopped(usage: Usage)

  const START := Reading(NO_USAGE, "")

  function Feed(lib: Library, dialect: Dialect, s: State, chunk: string): State {
    if s.Stopped? then s
    else
      var pieces := Split(s.buffer + chunk);
      var p := Fold(lib, dialect, s.usage, Complete(pieces));
      if p.raised then Stopped(p.usage) else Reading(p.usage, Last(pieces))
  }

  function FeedAll(lib: Library, dialect: Dialect, s: State, chunks: seq<string>): State
    decreases |chunks|
  {
    if chunks == [] then s else FeedAll(lib, dialect, Feed(lib, dialect, s, chunks[0]), chunks[1..])
  }

  function Concat(chunks: seq<string>): string
    decreases |chunks|
  {
    if chunks == [] then "" else chunks[0] + Concat(chunks[1..])
  }

  /** The usage dictionary and the one-cell buffer that a stream handler passes for every chunk. */
  class Accumulator {
    const lib: Library
    const dialect: Dialect
    var usage: Usage
    var buffer: string

    constructor (lib: Library, dialect: Dialect)
      ensures this.lib == lib && this.dialect == dialect && usage == NO_USAGE && buffer == ""
    {
      this.lib, this.dialect, usage, buffer := lib, dialect, NO_USAGE, "";
    }

    method Accumulate(chunk: string) returns (raised: bool)
      modifies this
      ensures var s := Feed(lib, dialect, Reading(old(usage), old(buffer)), chunk);
              raised == s.Stopped? && usage == s.usage && (!raised ==> buffer == s.buffer)
      ensures buffer == Last(Split(old(buffer) + chunk))
    {
      var lines := Split(buffer + chunk);
      ghost var complete := Complete(lines);
      buffer := lines[|lines| - 1];
      for i := 0 to |lines| - 1
        invariant Fold(lib, dialect, old(usage), complete) == Fold(lib, dialect, usage, complete[i..])
        invariant buffer == Last(lines)
      {
        FoldFrom(lib, dialect, usage, complete, i);
        var line := lines[i];
        if !("data: " <= line) {
          continue;
        }
        var data := lib.loads(line[6..]);
        if data.None? {
          continue;
        }
        var report := if dialect.Anthropic? then AnthropicReport(lib, data.value) else GeminiReport(lib, data.value);
        match report {
          case Broken => return true;
          case Input(n) =>
            usage := usage.(prompt := n);
            usage := usage.(total := n + usage.completion);
          case Output(n) =>
            usage := usage.(completion := n);
            usage := usage.(total := usage.prompt + n);
          case Totals(all) => usage := all;
          case Nothing =>
        }
      }
      return false;
    }
  }

  // ---------------------------------------------------------------------------------------------
  // However the stream is cut
  // ---------------------------------------------------------------------------------------------

  lemma {:induction false} FoldGoesOn(lib: Library, dialect: Dialect, usage: Usage, xs: seq<string>, ys: seq<string>)
    ensures var p := Fold(lib, dialect, usage, xs);
            Fold(lib, dialect, usage, xs + ys) == if p.raised then p else Fold(lib, dialect, p.usage, ys)
    decreases |xs|
  {
    if xs == [] {
      assert xs + ys == ys;
    } else {
      var report := ReportOf(lib, dialect, xs[0]);
      FoldGoesOn(lib, dialect, Applied(usage, report), xs[1..], ys);
      assert (xs + ys)[1..] == xs[1..] + ys;
    }
  }

  lemma FeedGoesOn(lib: Library, dialect: Dialect, s: State, x: string, y: string)
    ensures Feed(lib, dialect, Feed(lib, dialect, s, x), y) == Feed(lib, dialect, s, x + y)
  {
    if s.Reading? {
      var first := Split(s.buffer + x);
      var then_ := Split(Last(first) + y);
      SplitGoesOn(s.buffer + x, y);
      assert s.buffer + (x + y) == (s.buffer + x) + y;
      assert Complete(Complete(first) + then_) == Complete(first) + Complete(then_);
      FoldGoesOn(lib, dialect, s.usage, Complete(first), Complete(then_));
    }
  }

  /** A buffer is the end of a line: feeding nothing changes nothing. */
  ghost predicate Settled(s: State) {
    s.Reading? ==> Split(s.buffer) == [s.buffer]
  }

  lemma {:induction false} OnePiece(text: string)
    requires '\n' !in text
    ensures Split(text) == [text]
    decreases |text|
  {
    if text != "" {
      OnePiece(text[1..]);
      assert text == [text[0]] + text[1..];
    }
  }

  lemma FeedSettles(lib: Library, dialect: Dialect, s: State, chunk: string)
    ensures s.Reading? ==> Settled(Feed(lib, dialect, s, chunk))
  {
    if s.Reading? {
      SplitJoin(s.buffer + chunk);
      OnePiece(Last(Split(s.buffer + chunk)));
    }
  }

  lemma {:induction false} ChunksGoOn(lib: Library, dialect: Dialect, s: State, chunks: seq<string>)
    requires Settled(s)
    ensures FeedAll(lib, dialect, s, chunks) == Feed(lib, dialect, s, Concat(chunks))
    decreases |chunks|
  {
    if chunks == [] {
      if s.Reading? { assert s.buffer + "" == s.buffer; }
    } else {
      FeedSettles(lib, dialect, s, chunks[0]);
      ChunksGoOn(lib, dialect, Feed(lib, dialect, s, chunks[0]), chunks[1..]);
      FeedGoesOn(lib, dialect, s, chunks[0], Concat(chunks[1..]));
    }
  }

  /**
   However a text is cut into chunks, feeding them in turn gives the usage, the buffer and the
   failure that feeding the whole text at once gives.
   */
  lemma ChunkingDoesNotMatter(lib: Library, dialect: Dialect, chunks: seq<string>, other: seq<string>)
    requires Concat(chunks) == Concat(other)
    ensures FeedAll(lib, dialect, START, chunks) == FeedAll(lib, dialect, START, other)
            == Feed(lib, dialect, START, Concat(chunks))
  {
    ChunksGoOn(lib, dialect, START, chunks);
    ChunksGoOn(lib, dialect, START, other);
  }

  // ---------------------------------------------------------------------------------------------
  // What the usage means
  // ---------------------------------------------------------------------------------------------

  /** The readable reports, up to the first event that cannot be read. */
  function Reports(lib: Library, dialect: Dialect, lines: seq<string>): seq<Report>
    decreases |lines|
  {
    if lines == [] || ReportOf(lib, dialect, lines[0]).Broken? then []
    else [ReportOf(lib, dialect, lines[0])] + Reports(lib, dialect, lines[1..])
  }

  function LastInput(reports: seq<Report>, default: int): (n: int)
    ensures || (n == default && forall r <- reports :: !r.Input?)
            || exists i :: 0 <= i < |reports| && reports[i] == Input(n) && forall r <- reports[i + 1..] :: !r.Input?
    decreases |reports|
  {
    if reports == [] then default
    else LastInput(reports[1..], if reports[0].Input? then reports[0].tokens else default)
  }

  function LastOutput(reports: seq<Report>, default: int): (n: int)
    ensures || (n == default && forall r <- reports :: !r.Output?)
            || exists i :: 0 <= i < |reports| && reports[i] == Output(n) && forall r <- reports[i + 1..] :: !r.Output?
    decreases |reports|
  {
    if reports == [] then default
    else LastOutput(reports[1..], if reports[0].Output? then reports[0].tokens else default)
  }

  lemma {:induction false} AnthropicFold(lib: Library, usage: Usage, lines: seq<string>)
    requires usage.total == usage.prompt + usage.completion
    ensures var u, reports := Fold(lib, Anthropic, usage, lines).usage, Reports(lib, Anthropic, lines);
            && u.prompt == LastInput(reports, usage.prompt) && u.completion == LastOutput(reports, usage.completion)
            && u.total == u.prompt + u.completion
    decreases |lines|
  {
    if lines != [] {
      var report := ReportOf(lib, Anthropic, lines[0]);
      if !report.Broken? {
        AnthropicFold(lib, Applied(usage, report), lines[1..]);
        assert Reports(lib, Anthropic, lines)[1..] == Reports(lib, Anthropic, lines[1..]);
      }
    }
  }

  /**
   After any chunks of an Anthropic stream the prompt tokens are the last input count reported on a
   complete line, the completion tokens the last output count, and the total is their sum.
   */
  lemma AnthropicUsageIsLast(lib: Library, chunks: seq<string>)
    ensures var u := FeedAll(lib, Anthropic, START, chunks).usage;
            var reports := Reports(lib, Anthropic, Complete(Split(Concat(chunks))));
            u == Usage(LastInput(reports, 0), LastOutput(reports, 0), LastInput(reports, 0) + LastOutput(reports, 0))
  {
    ChunksGoOn(lib, Anthropic, START, chunks);
    assert "" + Concat(chunks) == Concat(chunks);
    AnthropicFold(lib, NO_USAGE, Complete(Split(Concat(chunks))));
  }

  function LastTotals(reports: seq<Report>, default: Usage): (u: Usage)
    ensures || (u == default && forall r <- reports :: !r.Totals?)
            || exists i :: 0 <= i < |reports| && reports[i] == Totals(u) && forall r <- reports[i + 1..] :: !r.Totals?
    decreases |reports|
  {
    if reports == [] then default
    else LastTotals(reports[1..], if reports[0].Totals? then reports[0].usage else default)
  }

  lemma {:induction false} GeminiFold(lib: Library, usage: Usage, lines: seq<string>)
    ensures Fold(lib, Gemini, usage, lines).usage == LastTotals(Reports(lib, Gemini, lines), usage)
    decreases |lines|
  {
    if lines != [] {
      var report := ReportOf(lib, Gemini, lines[0]);
      if !report.Broken? {
        GeminiFold(lib, Applied(usage, report), lines[1..]);
        assert Reports(lib, Gemini, lines)[1..] == Reports(lib, Gemini, lines[1..]);
      }
    }
  }

  /** After any chunks of a Gemini stream the usage is the last one reported with a total. */
  lemma GeminiUsageIsLast(lib: Library, chunks: seq<string>)
    ensures FeedAll(lib, Gemini, START, chunks).usage
            == LastTotals(Reports(lib, Gemini, Complete(Split(Concat(chunks)))), NO_USAGE)
  {
    ChunksGoOn(lib, Gemini, START, chunks);
    assert "" + Concat(chunks) == Concat(chunks);
    GeminiFold(lib, NO_USAGE, Complete(Split(Concat(chunks))));
  }
}
