/** The streaming response decoder of `BaseAPIClient._process_response`:
    a line-oriented reader of server-sent events that accumulates the
    `choices[0].delta.content` pieces of the JSON fragments carried on
    `data:` lines, keeps the last `usage` value, and stops at the
    `data: [DONE]` sentinel.

    The JSON parser is not modelled: every function here takes it as a
    parameter `parse` that classifies the text after `data:` (see Parsed).
    The usage value is never inspected, so its type is a parameter `U`. */
module StreamDecoder {
  import opened Wrappers
  import opened Strings

  /** Prefix that marks a line carrying an event payload. */
  const DataPrefix: string := "data:"

  /** Stripped text of the line that ends the stream. */
  const DoneLine: string := "data: [DONE]"

  // ---------------------------------------------------------------------
  // Decoded JSON fragments
  // ---------------------------------------------------------------------

  /** Whether a key is present in a JSON object (`"usage" in data`). */
  datatype Member<T> = Absent | Present(value: T)

  /** `delta`: `content` is None when the key is missing, is JSON null or is
      another falsy value (all of which the source skips). */
  datatype Delta = Delta(content: Option<string>)

  /** One element of `choices`: `delta` is None when the key is missing
      (the source then reads `{}` and finds no content). */
  datatype Choice = Choice(delta: Option<Delta>)

  /** A decoded JSON value as the decoder sees it. `choices` is the empty
      sequence when the key is missing or its value is falsy (null, `[]`,
      `{}`, `""`, `0`, `false`); `usage` is Present(None) for
      `"usage": null`, which overwrites an earlier usage with None in the
      source. A list or string that holds neither "choices" nor "usage"
      passes both membership tests as False and is `Fragment([], Absent)`. */
  datatype Fragment<U> = Fragment(choices: seq<Choice>, usage: Member<Option<U>>)

  /** What the abstract JSON parser makes of the text after `data:`.
      - Malformed: `json.loads` raised `JSONDecodeError`; the line is skipped.
      - Unexpected: the text decoded to a value on which the loop body
        raises: a number, a boolean or `null` (the membership test raises);
        a list holding the string "choices" or "usage", or a string holding
        either as a substring (the subscript raises); a truthy `choices`
        that is not a list; a first choice or a `delta` that is not an
        object; a truthy non-string `content`. The exception escapes the
        decoder.
      - Object: any other value, read as a Fragment. */
  datatype Parsed<U> = Malformed | Unexpected | Object(fragment: Fragment<U>)

  /** The `APIResponse` record; the decoder never sets `error`. */
  datatype ApiResponse<U> = ApiResponse(content: string, usage: Option<U>, error: Option<string>)

  /** What the decoder does: it returns a response or the loop raises. */
  datatype Outcome<U> = Returned(response: ApiResponse<U>) | ShapeError

  // ---------------------------------------------------------------------
  // How one line is handled
  // ---------------------------------------------------------------------

  /** The three kinds of line the loop distinguishes. */
  datatype Kind = Ignored | Sentinel | Payload(text: string)

  /** Classifies one decoded response line: empty lines and lines without
      the `data:` prefix are ignored, a `data:` line whose stripped text is
      `data: [DONE]` is the sentinel, and any other `data:` line carries the
      text that follows the prefix. A `data:` line starts with a non-space
      character, so stripping it only removes trailing whitespace: the test
      below uses `RStrip`, which StripOfDataLine shows equal to `Strip`. */
  function Classify(line: string): (k: Kind)
    ensures k.Ignored? <==> !(DataPrefix <= line)
    ensures k.Payload? ==> line == DataPrefix + k.text
  {
    if line == [] then Ignored
    else if !(DataPrefix <= line) then Ignored
    else if RStrip(line) == DoneLine then Sentinel
    else Payload(line[|DataPrefix|..])
  }

  /** On a `data:` line, `strip()` and `rstrip()` agree. */
  lemma StripOfDataLine(line: string)
    requires DataPrefix <= line
    ensures Strip(line) == RStrip(line)
  {
  }

  /** The text a fragment appends: `choices[0].delta.content` when there is
      a first choice with a delta whose content is a non-empty string, and
      nothing otherwise. */
  function Contribution<U>(f: Fragment<U>): string {
    if |f.choices| > 0 && f.choices[0].delta.Some? && f.choices[0].delta.value.content.Some?
    then f.choices[0].delta.value.content.value
    else ""
  }

  /** The usage after a fragment: its own `usage` when the key is present,
      the previous one otherwise. */
  function Override<U>(usage: Option<U>, m: Member<Option<U>>): Option<U> {
    match m
    case Absent => usage
    case Present(u) => u
  }

  /** The accumulator after one fragment has been absorbed. */
  function Absorb<U>(acc: ApiResponse<U>, f: Fragment<U>): ApiResponse<U> {
    ApiResponse(acc.content + Contribution(f), Override(acc.usage, f.usage), acc.error)
  }

  /** What one loop iteration does: go on with a new accumulator, or end
      the loop with an outcome (the `break` on the sentinel, or an escaping
      exception). */
  datatype Step<U> = Continue(acc: ApiResponse<U>) | Stop(outcome: Outcome<U>)

  function StepLine<U>(parse: string -> Parsed<U>, line: string, acc: ApiResponse<U>): Step<U> {
    match Classify(line)
    case Ignored => Continue(acc)
    case Sentinel => Stop(Returned(acc))
    case Payload(text) =>
      match parse(text)
      case Malformed => Continue(acc)
      case Unexpected => Stop(ShapeError)
      case Object(f) => Continue(Absorb(acc, f))
  }

  /** The loop over the remaining lines from accumulator `acc`. */
  function Run<U>(parse: string -> Parsed<U>, lines: seq<string>, acc: ApiResponse<U>): Outcome<U>
    decreases |lines|
  {
    if lines == [] then Returned(acc)
    else
      match StepLine(parse, lines[0], acc)
      case Continue(next) => Run(parse, lines[1..], next)
      case Stop(outcome) => outcome
  }

  /** The initial state: empty text and no usage. */
  function Initial<U>(): ApiResponse<U> {
    ApiResponse("", None, None)
  }

  /** The whole decoder as a function of the lines. */
  function Decode<U>(parse: string -> Parsed<U>, lines: seq<string>): Outcome<U> {
    Run(parse, lines, Initial())
  }

  // ---------------------------------------------------------------------
  // The decoder as the source writes it
  // ---------------------------------------------------------------------

  /** `_process_response`: one pass over the lines that appends each
      non-empty delta content, overwrites the usage whenever a fragment
      carries the key, skips undecodable payloads and breaks on the
      sentinel. */
  method ProcessResponse<U>(parse: string -> Parsed<U>, lines: seq<string>) returns (r: Outcome<U>)
    ensures r == Decode(parse, lines)
  {
    var result: string := "";
    var usage: Option<U> := None;
    var i := 0;
    while i < |lines|
      invariant 0 <= i <= |lines|
      invariant Run(parse, lines[i..], ApiResponse(result, usage, None)) == Decode(parse, lines)
    {
      var line := lines[i];
      assert lines[i..][0] == line && lines[i..][1..] == lines[i + 1..];
      ghost var before := ApiResponse(result, usage, None);
      if line != [] && DataPrefix <= line {
        StripOfDataLine(line);
        if Strip(line) == DoneLine {
          break;
        }
        match parse(line[|DataPrefix|..])
        case Malformed =>
        case Unexpected =>
          return ShapeError;
        case Object(data) =>
          if |data.choices| > 0 {
            var content := match data.choices[0].delta
              case None => None
              case Some(delta) => delta.content;
            if content.Some? && content.value != "" {
              result := result + content.value;
            }
          }
          match data.usage
          case Present(u) =>
            usage := u;
          case Absent =>
      }
      assert StepLine(parse, line, before) == Continue(ApiResponse(result, usage, None));
      i := i + 1;
    }
    r := Returned(ApiResponse(result, usage, None));
  }

  // ---------------------------------------------------------------------
  // An independent description of the result
  // ---------------------------------------------------------------------

  /** The lines before the first sentinel. */
  function Live(lines: seq<string>): (r: seq<string>)
    ensures r <= lines
    ensures forall i :: 0 <= i < |r| ==> !Classify(r[i]).Sentinel?
    ensures |r| < |lines| ==> Classify(lines[|r|]).Sentinel?
  {
    if lines == [] then []
    else if Classify(lines[0]).Sentinel? then []
    else [lines[0]] + Live(lines[1..])
  }

  /** The parser's verdicts on the payload lines, in order. */
  function Verdicts<U>(parse: string -> Parsed<U>, lines: seq<string>): seq<Parsed<U>> {
    if lines == [] then [] else Verdict(parse, lines[0]) + Verdicts(parse, lines[1..])
  }

  /** The parser's verdict on one line, if it is a payload line. */
  function Verdict<U>(parse: string -> Parsed<U>, line: string): seq<Parsed<U>> {
    match Classify(line)
    case Payload(text) => [parse(text)]
    case _ => []
  }

  /** The decoded fragments among the verdicts, in order. */
  function Fragments<U>(ps: seq<Parsed<U>>): seq<Fragment<U>> {
    if ps == [] then []
    else (if ps[0].Object? then [ps[0].fragment] else []) + Fragments(ps[1..])
  }

  /** Whether some verdict makes the loop raise. */
  predicate Raises<U>(ps: seq<Parsed<U>>) {
    exists i :: 0 <= i < |ps| && ps[i].Unexpected?
  }

  /** The concatenation of the fragments' contributions, in order. */
  function Text<U>(fs: seq<Fragment<U>>): string {
    if fs == [] then "" else Contribution(fs[0]) + Text(fs[1..])
  }

  /** The `usage` member of the last fragment that has one, or Absent. */
  function LastUsage<U>(fs: seq<Fragment<U>>): Member<Option<U>> {
    if fs == [] then Absent
    else if fs[|fs| - 1].usage.Present? then fs[|fs| - 1].usage
    else LastUsage(fs[..|fs| - 1])
  }

  /** The result the decoder is meant to produce: if any payload before the
      first sentinel makes the loop raise, the call raises; otherwise the
      content is the concatenation of the contributions of the decoded
      fragments before the sentinel and the usage is that of the last of
      them that carries the key (None if none does). */
  function Expected<U>(parse: string -> Parsed<U>, lines: seq<string>): Outcome<U> {
    ExpectedFrom(parse, lines, Initial())
  }

  /** The same, continued from an accumulator `acc`: its content is
      extended and its usage overridden. */
  function ExpectedFrom<U>(parse: string -> Parsed<U>, lines: seq<string>, acc: ApiResponse<U>): Outcome<U> {
    var ps := Verdicts(parse, Live(lines));
    if Raises(ps) then ShapeError
    else Returned(ApiResponse(acc.content + Text(Fragments(ps)),
                              Override(acc.usage, LastUsage(Fragments(ps))), acc.error))
  }

  // ---------------------------------------------------------------------
  // Lemmas about the reference functions
  // ---------------------------------------------------------------------

  lemma {:induction false} TextAppend<U>(a: seq<Fragment<U>>, b: seq<Fragment<U>>)
    ensures Text(a + b) == Text(a) + Text(b)
  {
    if a == [] {
      assert a + b == b;
    } else {
      assert (a + b)[0] == a[0] && (a + b)[1..] == a[1..] + b;
      TextAppend(a[1..], b);
    }
  }

  lemma {:induction false} LastUsageAppend<U>(a: seq<Fragment<U>>, b: seq<Fragment<U>>)
    ensures LastUsage(a + b) == if LastUsage(b).Present? then LastUsage(b) else LastUsage(a)
    decreases |b|
  {
    if b == [] {
      assert a + b == a;
    } else {
      var n := |a + b|;
      assert (a + b)[n - 1] == b[|b| - 1];
      assert (a + b)[..n - 1] == a + b[..|b| - 1];
      LastUsageAppend(a, b[..|b| - 1]);
    }
  }

  /** LastUsage picks the last fragment that carries the key: it is Present(u)
      exactly when some fragment has `usage == Present(u)` and no later one
      has the key, and Absent exactly when no fragment has the key. */
  lemma {:induction false} LastUsageIsLast<U>(fs: seq<Fragment<U>>)
    ensures LastUsage(fs).Absent? <==> forall i :: 0 <= i < |fs| ==> fs[i].usage.Absent?
    ensures LastUsage(fs).Present? ==>
      exists i :: 0 <= i < |fs| && fs[i].usage == LastUsage(fs) &&
                  forall j :: i < j < |fs| ==> fs[j].usage.Absent?
  {
    if fs != [] {
      var n := |fs|;
      var init := fs[..n - 1];
      LastUsageIsLast(init);
      if fs[n - 1].usage.Absent? {
        assert forall i :: 0 <= i < n - 1 ==> fs[i] == init[i];
        if LastUsage(fs).Present? {
          var i :| 0 <= i < |init| && init[i].usage == LastUsage(init) &&
                   forall j :: i < j < |init| ==> init[j].usage.Absent?;
          assert fs[i].usage == LastUsage(fs);
        }
      } else {
        assert fs[n - 1].usage == LastUsage(fs);
      }
    }
  }

  lemma {:induction false} FragmentsAppend<U>(a: seq<Parsed<U>>, b: seq<Parsed<U>>)
    ensures Fragments(a + b) == Fragments(a) + Fragments(b)
  {
    if a == [] {
      assert a + b == b;
    } else {
      assert (a + b)[0] == a[0] && (a + b)[1..] == a[1..] + b;
      FragmentsAppend(a[1..], b);
    }
  }

  lemma VerdictsOfLive<U>(parse: string -> Parsed<U>, lines: seq<string>)
    requires lines != [] && !Classify(lines[0]).Sentinel?
    ensures Verdicts(parse, Live(lines)) == Verdict(parse, lines[0]) + Verdicts(parse, Live(lines[1..]))
  {
  }

  lemma RaisesCons<U>(p: Parsed<U>, ps: seq<Parsed<U>>)
    ensures Raises([p] + ps) <==> p.Unexpected? || Raises(ps)
  {
    var qs := [p] + ps;
    assert qs[0] == p;
    if Raises(ps) {
      var i :| 0 <= i < |ps| && ps[i].Unexpected?;
      assert qs[i + 1] == ps[i];
    }
    if Raises(qs) && !p.Unexpected? {
      var i :| 0 <= i < |qs| && qs[i].Unexpected?;
      assert i != 0;
      assert ps[i - 1] == qs[i];
      assert 0 <= i - 1 < |ps| && ps[i - 1].Unexpected?;
    }
  }

  /** One loop iteration moves the reference result along: after a line
      that continues the loop, the reference result of the rest from the
      new accumulator is that of the whole from the old one; a line that
      stops the loop yields the reference result directly. */
  lemma ExpectedStep<U>(parse: string -> Parsed<U>, lines: seq<string>, acc: ApiResponse<U>)
    requires lines != []
    ensures match StepLine(parse, lines[0], acc)
            case Continue(next) => ExpectedFrom(parse, lines, acc) == ExpectedFrom(parse, lines[1..], next)
            case Stop(outcome) => ExpectedFrom(parse, lines, acc) == outcome
  {
    if !Classify(lines[0]).Sentinel? {
      VerdictsOfLive(parse, lines);
      var ps' := Verdicts(parse, Live(lines[1..]));
      match Classify(lines[0])
      case Ignored =>
        assert Verdict(parse, lines[0]) + ps' == ps';
      case Payload(text) =>
        PayloadStep(parse(text), ps', acc);
    }
  }

  /** The reference result after a payload line's verdict `p`. */
  lemma PayloadStep<U>(p: Parsed<U>, ps: seq<Parsed<U>>, acc: ApiResponse<U>)
    ensures var qs := [p] + ps;
      match p
      case Malformed => Raises(qs) == Raises(ps) && Fragments(qs) == Fragments(ps)
      case Unexpected => Raises(qs)
      case Object(f) =>
        && Raises(qs) == Raises(ps)
        && acc.content + Text(Fragments(qs)) == Absorb(acc, f).content + Text(Fragments(ps))
        && Override(acc.usage, LastUsage(Fragments(qs))) == Override(Absorb(acc, f).usage, LastUsage(Fragments(ps)))
  {
    RaisesCons(p, ps);
    var qs := [p] + ps;
    assert qs[0] == p && qs[1..] == ps;
    match p
    case Malformed =>
    case Unexpected =>
    case Object(f) =>
      var fs := Fragments(ps);
      assert Fragments(qs) == [f] + fs;
      TextAppend([f], fs);
      LastUsageAppend([f], fs);
      assert LastUsage([f]) == f.usage by {
        assert [f][..0] == [];
      }
  }

  /** Run from any accumulator agrees with the reference description. */
  lemma {:induction false} RunMatchesExpected<U>(parse: string -> Parsed<U>, lines: seq<string>, acc: ApiResponse<U>)
    ensures Run(parse, lines, acc) == ExpectedFrom(parse, lines, acc)
    decreases |lines|
  {
    if lines != [] {
      ExpectedStep(parse, lines, acc);
      match StepLine(parse, lines[0], acc)
      case Continue(next) =>
        RunMatchesExpected(parse, lines[1..], next);
      case Stop(_) =>
    }
  }

  // ---------------------------------------------------------------------
  // The properties the decoder promises
  // ---------------------------------------------------------------------

  /** The decoder computes the reference result: content is the in-order
      concatenation of the non-empty `choices[0].delta.content` of the
      decoded fragments before the first sentinel, and usage is that of the
      last such fragment carrying the key, or None. */
  lemma DecodeMatchesExpected<U>(parse: string -> Parsed<U>, lines: seq<string>)
    ensures Decode(parse, lines) == Expected(parse, lines)
  {
    RunMatchesExpected(parse, lines, Initial());
  }

  /** The text accumulated so far is never lost: whatever the remaining
      lines, a returned response extends the accumulator's content. */
  lemma {:induction false} RunExtendsContent<U>(parse: string -> Parsed<U>, lines: seq<string>, acc: ApiResponse<U>)
    ensures Run(parse, lines, acc).Returned? ==> acc.content <= Run(parse, lines, acc).response.content
    decreases |lines|
  {
    if lines != [] {
      match StepLine(parse, lines[0], acc)
      case Continue(next) =>
        RunExtendsContent(parse, lines[1..], next);
      case Stop(_) =>
    }
  }

  /** Content only grows with the stream: if the decoder returns on
      `a + b`, it returns on `a` too, with a prefix of that content. */
  lemma {:induction false} ContentGrowsMonotonically<U>(parse: string -> Parsed<U>, a: seq<string>, b: seq<string>, acc: ApiResponse<U>)
    requires Run(parse, a + b, acc).Returned?
    ensures Run(parse, a, acc).Returned?
    ensures Run(parse, a, acc).response.content <= Run(parse, a + b, acc).response.content
    decreases |a|
  {
    if a == [] {
      assert a + b == b;
      RunExtendsContent(parse, b, acc);
    } else {
      assert (a + b)[0] == a[0] && (a + b)[1..] == a[1..] + b;
      match StepLine(parse, a[0], acc)
      case Continue(next) =>
        ContentGrowsMonotonically(parse, a[1..], b, next);
      case Stop(_) =>
    }
  }

  /** Lines after the first sentinel never matter: the result on the whole
      input is the result on the lines before it. */
  lemma {:induction false} SentinelCutsOff<U>(parse: string -> Parsed<U>, lines: seq<string>, acc: ApiResponse<U>)
    ensures Run(parse, lines, acc) == Run(parse, Live(lines), acc)
    decreases |lines|
  {
    if lines != [] && !Classify(lines[0]).Sentinel? {
      var live := Live(lines);
      assert live[0] == lines[0] && live[1..] == Live(lines[1..]);
      match StepLine(parse, lines[0], acc)
      case Continue(next) =>
        SentinelCutsOff(parse, lines[1..], next);
      case Stop(_) =>
    }
  }

  /** Appending arbitrary lines after a sentinel leaves the result unchanged. */
  lemma {:induction false} LinesAfterSentinelIgnored<U>(parse: string -> Parsed<U>, a: seq<string>, s: string, b: seq<string>)
    requires Classify(s).Sentinel?
    ensures Decode(parse, a + [s] + b) == Decode(parse, a + [s])
  {
    SentinelCutsOff(parse, a + [s] + b, Initial());
    SentinelCutsOff(parse, a + [s], Initial());
    LiveThroughSentinel(a, s, b);
  }

  lemma {:induction false} LiveThroughSentinel(a: seq<string>, s: string, b: seq<string>)
    requires Classify(s).Sentinel?
    ensures Live(a + [s] + b) == Live(a + [s])
  {
    if a == [] {
      assert (a + [s] + b)[0] == s && (a + [s])[0] == s;
    } else {
      assert (a + [s] + b)[0] == a[0] && (a + [s] + b)[1..] == a[1..] + [s] + b;
      assert (a + [s])[0] == a[0] && (a + [s])[1..] == a[1..] + [s];
      LiveThroughSentinel(a[1..], s, b);
    }
  }

  /** A line the loop passes over without effect: an ignored line, or a
      `data:` payload the parser rejects as malformed JSON. */
  predicate Inert<U>(parse: string -> Parsed<U>, line: string) {
    match Classify(line)
    case Ignored => true
    case Sentinel => false
    case Payload(text) => parse(text).Malformed?
  }

  /** Inserting or removing one inert line anywhere does not change the result. */
  lemma {:induction false} InertLineIrrelevant<U>(parse: string -> Parsed<U>, a: seq<string>, x: string, b: seq<string>, acc: ApiResponse<U>)
    requires Inert(parse, x)
    ensures Run(parse, a + [x] + b, acc) == Run(parse, a + b, acc)
    decreases |a|
  {
    if a == [] {
      assert a + [x] + b == [x] + b && a + b == b;
      assert ([x] + b)[0] == x && ([x] + b)[1..] == b;
    } else {
      assert (a + [x] + b)[0] == a[0] && (a + [x] + b)[1..] == a[1..] + [x] + b;
      assert (a + b)[0] == a[0] && (a + b)[1..] == a[1..] + b;
      match StepLine(parse, a[0], acc)
      case Continue(next) =>
        InertLineIrrelevant(parse, a[1..], x, b, next);
      case Stop(_) =>
    }
  }

  /** Empty lines and lines without the `data:` prefix are ignored. */
  lemma IgnoredLineIrrelevant<U>(parse: string -> Parsed<U>, a: seq<string>, x: string, b: seq<string>)
    requires x == [] || !(DataPrefix <= x)
    ensures Decode(parse, a + [x] + b) == Decode(parse, a + b)
  {
    InertLineIrrelevant(parse, a, x, b, Initial());
  }

  /** A `data:` line whose remainder fails to decode is skipped: the result
      is that of the input without it, so earlier content is kept. */
  lemma MalformedLineSkipped<U>(parse: string -> Parsed<U>, a: seq<string>, text: string, b: seq<string>)
    requires parse(text).Malformed?
    requires !Classify(DataPrefix + text).Sentinel?
    ensures Decode(parse, a + [DataPrefix + text] + b) == Decode(parse, a + b)
  {
    var x := DataPrefix + text;
    assert DataPrefix <= x;
    assert Classify(x) == Payload(text) by {
      assert x[|DataPrefix|..] == text;
    }
    InertLineIrrelevant(parse, a, x, b, Initial());
  }

  /** The lines that are not inert, in order. */
  function WithoutInert<U>(parse: string -> Parsed<U>, lines: seq<string>): (r: seq<string>)
    ensures forall i :: 0 <= i < |r| ==> !Inert(parse, r[i])
    ensures forall x :: x in r <==> x in lines && !Inert(parse, x)
    decreases |lines|
  {
    if lines == [] then []
    else if Inert(parse, lines[0]) then WithoutInert(parse, lines[1..])
    else [lines[0]] + WithoutInert(parse, lines[1..])
  }

  /** The filter keeps a single line exactly when it is not inert. */
  lemma WithoutInertSingle<U>(parse: string -> Parsed<U>, x: string)
    ensures WithoutInert(parse, [x]) == if Inert(parse, x) then [] else [x]
  {
  }

  /** The filter works line by line: filtering a concatenation concatenates
      the filtered parts, so the kept lines keep their order and number. */
  lemma {:induction false} WithoutInertAppend<U>(parse: string -> Parsed<U>, a: seq<string>, b: seq<string>)
    ensures WithoutInert(parse, a + b) == WithoutInert(parse, a) + WithoutInert(parse, b)
    decreases |a|
  {
    if a == [] {
      assert a + b == b;
    } else {
      assert (a + b)[0] == a[0] && (a + b)[1..] == a[1..] + b;
      WithoutInertAppend(parse, a[1..], b);
    }
  }

  /** Removing every inert line at once does not change the result. */
  lemma {:induction false} RemovingInertLines<U>(parse: string -> Parsed<U>, lines: seq<string>, acc: ApiResponse<U>)
    ensures Run(parse, lines, acc) == Run(parse, WithoutInert(parse, lines), acc)
    decreases |lines|
  {
    if lines != [] {
      var kept := WithoutInert(parse, lines);
      if Inert(parse, lines[0]) {
        RemovingInertLines(parse, lines[1..], acc);
      } else {
        assert kept[0] == lines[0] && kept[1..] == WithoutInert(parse, lines[1..]);
        match StepLine(parse, lines[0], acc)
        case Continue(next) =>
          RemovingInertLines(parse, lines[1..], next);
        case Stop(_) =>
      }
    }
  }

  /** The sentinel lines are exactly `data: [DONE]` followed by whitespace. */
  lemma SentinelShape(line: string)
    ensures Classify(line).Sentinel? <==> exists w :: AllSpace(w) && line == DoneLine + w
  {
    if Classify(line).Sentinel? {
      RStripRemovesTrailingSpace(line);
      var r := RStrip(line);
      var w := line[|r|..];
      assert line == r + w;
    }
    if exists w :: AllSpace(w) && line == DoneLine + w {
      var w :| AllSpace(w) && line == DoneLine + w;
      assert line[..|DataPrefix|] == DataPrefix;
      StripOfNonSpaceStart(line);
      RStripOfPadded(DoneLine, w);
    }
  }
}
