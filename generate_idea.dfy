/** The idea endpoint, `api/generate-idea.js`: it classifies the request,
    builds the prompt, calls the text-generation provider and parses the
    free-text completion into a title and a description.

    The provider is a parameter: a function from the request the endpoint
    would send to the reply it gets back. The credential and the model name
    are parameters too. */
module GenerateIdea {

  import opened Wrappers
  import opened Text
  import opened IdeaTypes

  // =====================================================================
  // Prompt

  const PromptIntro := "Generate a creative and romantic date night idea. "

  /** The fixed block that closes every prompt; the parser below relies on
      the two format lines it asks for. */
  const FormatInstructions :=
    "\n\nRespond in this exact format:"
    + FormatTitleLine
    + FormatDescriptionLine
    + "\n\nMake it specific, romantic, and actionable."

  const FormatTitleLine := "\nTitle: " + "[Creative title]"
  const FormatDescriptionLine := "\nDescription: " + "[2-3 sentence description of the date idea]"

  const LocationLabel := "Location preference: "
  const TimeOfDayLabel := "Time of day: "
  const OccasionLabel := "Occasion: "

  /** One `Label: value. ` sentence of the prompt. */
  function Clause(name: string, value: string): string {
    name + value + ". "
  }

  /** A clause that is present only for a non-empty (truthy) value. */
  function OptionalClause(name: string, value: string): (r: string)
    ensures r == [] <==> value == []
    ensures value != [] ==> r == Clause(name, value)
  {
    if value == [] then [] else Clause(name, value)
  }

  /** The part of the prompt that every request gets before its optional
      clauses. */
  function PromptHead(p: IdeaRequest): string {
    PromptIntro + Clause("Mood: ", p.mood) + Clause("Budget: ", p.budget)
  }

  /** The prompt `buildPrompt` produces. */
  function Prompt(p: IdeaRequest): string {
    PromptHead(p)
    + OptionalClause(LocationLabel, p.location)
    + OptionalClause(TimeOfDayLabel, p.timeOfDay)
    + OptionalClause(OccasionLabel, p.occasion)
    + FormatInstructions
  }

  /** `buildPrompt`: appends one template sentence at a time. */
  method BuildPrompt(p: IdeaRequest) returns (prompt: string)
    ensures prompt == Prompt(p)
  {
    prompt := PromptIntro;
    prompt := prompt + ("Mood: " + p.mood + ". ");
    prompt := prompt + ("Budget: " + p.budget + ". ");
    if p.location != [] {
      prompt := prompt + (LocationLabel + p.location + ". ");
    }
    if p.timeOfDay != [] {
      prompt := prompt + (TimeOfDayLabel + p.timeOfDay + ". ");
    }
    if p.occasion != [] {
      prompt := prompt + (OccasionLabel + p.occasion + ". ");
    }
    prompt := prompt + FormatInstructions;
  }

  /** Every prompt starts with the introduction and the mood and budget
      sentences, ends with the format instructions, and holds between them
      exactly the optional clauses of the non-empty fields, in the order
      location, time of day, occasion. */
  lemma PromptShape(p: IdeaRequest)
    ensures var prompt := Prompt(p);
      var h := |PromptHead(p)|;
      var e := |prompt| - |FormatInstructions|;
      && |PromptIntro| <= h <= e
      && prompt[..|PromptIntro|] == PromptIntro
      && prompt[|PromptIntro|..h] == Clause("Mood: ", p.mood) + Clause("Budget: ", p.budget)
      && prompt[h..e] == OptionalClause(LocationLabel, p.location)
                         + OptionalClause(TimeOfDayLabel, p.timeOfDay)
                         + OptionalClause(OccasionLabel, p.occasion)
      && prompt[e..] == FormatInstructions
  {
    var m, b := Clause("Mood: ", p.mood), Clause("Budget: ", p.budget);
    var o1 := OptionalClause(LocationLabel, p.location);
    var o2 := OptionalClause(TimeOfDayLabel, p.timeOfDay);
    var o3 := OptionalClause(OccasionLabel, p.occasion);
    Regroup(PromptIntro, m, b, o1, o2, o3, FormatInstructions);
    Slices(PromptIntro, m + b, o1 + o2 + o3, FormatInstructions);
  }

  lemma Regroup(a: string, m: string, b: string, o1: string, o2: string, o3: string, f: string)
    ensures a + m + b + o1 + o2 + o3 + f == a + (m + b) + (o1 + o2 + o3) + f
  {
  }

  lemma Slices(a: string, b: string, c: string, d: string)
    ensures var s := a + b + c + d;
      && s[..|a|] == a && s[|a|..|a| + |b|] == b
      && s[|a| + |b|..|s| - |d|] == c && s[|s| - |d|..] == d
  {
  }

  /** A request with no optional field gets no optional clause. */
  lemma PromptWithoutOptionalFields(p: IdeaRequest)
    requires p.location == [] && p.timeOfDay == [] && p.occasion == []
    ensures Prompt(p) == PromptIntro + Clause("Mood: ", p.mood) + Clause("Budget: ", p.budget) + FormatInstructions
  {
    var h := PromptHead(p);
    assert OptionalClause(LocationLabel, p.location) == [];
    assert OptionalClause(TimeOfDayLabel, p.timeOfDay) == [];
    assert OptionalClause(OccasionLabel, p.occasion) == [];
    assert h + [] + [] + [] == h;
  }

  /** The instructions ask for a `Title:` line followed by a `Description:`
      line. */
  lemma FormatInstructionsAskForMarkers()
    ensures Contains(FormatInstructions, "\nTitle: ")
    ensures Contains(FormatInstructions, "\nDescription: ")
  {
    var a := "\n\nRespond in this exact format:";
    var z := "\n\nMake it specific, romantic, and actionable.";
    assert FormatInstructions == a + FormatTitleLine + (FormatDescriptionLine + z);
    ContainsInside(a, FormatTitleLine, FormatDescriptionLine + z, "\nTitle: ");
    ContainsInside(a + FormatTitleLine, FormatDescriptionLine, z, "\nDescription: ");
  }

  // =====================================================================
  // Parsing the completion
  //
  // The two regular expressions of `parseLLMResponse` are written out as
  // scanners that follow the backtracking order of a JavaScript regex. Each
  // has a marker (`title:` or `description:`, any case), a greedy `\s*`, a
  // lazy capture of at least one character, and an alternation the capture
  // must end at: for the title a newline, the description marker or the end
  // of the text; for the description a blank line or the end of the text.
  // The search tries every start index from the left; at the first index
  // where the marker matches (ASCII letters in any case) `\s*` first takes
  // the whole run of whitespace and gives it back one character at a time;
  // for each choice the lazy capture grows one character at a time until
  // the lookahead alternation succeeds. There is no `m` flag, so `$` is the
  // end of the text. Without the `s` flag the title's `.` refuses all four
  // line terminators; with it the description's `.` takes any character.

  datatype Field = TitleField | DescriptionField

  /** The marker in lower case. */
  function Marker(f: Field): string {
    match f
    case TitleField => "title:"
    case DescriptionField => "description:"
  }

  /** The characters `.` may take in the capture. */
  predicate CaptureChar(f: Field, c: char) {
    f == DescriptionField || !IsLineTerminator(c)
  }

  /** The alternation after the capture succeeds at index `q`. */
  predicate EndsAt(f: Field, s: string, q: nat)
    requires q <= |s|
  {
    match f
    case TitleField => q == |s| || s[q] == '\n' || MarkerAt(s, q, "description:")
    case DescriptionField => q == |s| || (q + 1 < |s| && s[q] == '\n' && s[q + 1] == '\n')
  }

  /** Length of the whitespace run that a greedy `\s*` takes at `p`. */
  function WhitespaceRun(s: string, p: nat): (n: nat)
    requires p <= |s|
    ensures p + n <= |s|
    ensures forall k :: p <= k < p + n ==> IsWhitespace(s[k])
    ensures p + n == |s| || !IsWhitespace(s[p + n])
    decreases |s| - p
  {
    if p < |s| && IsWhitespace(s[p]) then 1 + WhitespaceRun(s, p + 1) else 0
  }

  /** The lazy capture, already holding `s[c..q]`, tries to stop at `q` and
      otherwise takes one more character. Gives the end of the capture. */
  function ExtendCapture(f: Field, s: string, q: nat): (r: Option<nat>)
    requires q <= |s|
    ensures r.Some? ==> q <= r.value <= |s|
    decreases |s| - q
  {
    if EndsAt(f, s, q) then Some(q)
    else if q < |s| && CaptureChar(f, s[q]) then ExtendCapture(f, s, q + 1)
    else None
  }

  /** `(.+?)` followed by the alternation, starting at `c`. */
  function Capture(f: Field, s: string, c: nat): (r: Option<nat>)
    requires c <= |s|
    ensures r.Some? ==> c < r.value <= |s|
  {
    if c < |s| && CaptureChar(f, s[c]) then ExtendCapture(f, s, c + 1) else None
  }

  /** A match: where the marker starts and where the capture starts and ends. */
  datatype Match = Match(start: nat, capStart: nat, capEnd: nat)

  /** `\s*` giving back whitespace: tries `k`, `k - 1`, ..., `0` characters. */
  function Backtrack(f: Field, s: string, i: nat, p: nat, k: nat): (r: Option<Match>)
    requires p + k <= |s|
    ensures r.Some? ==> r.value.start == i && p <= r.value.capStart <= p + k
                        && r.value.capStart < r.value.capEnd <= |s|
    decreases k
  {
    match Capture(f, s, p + k)
    case Some(e) => Some(Match(i, p + k, e))
    case None => if k == 0 then None else Backtrack(f, s, i, p, k - 1)
  }

  /** The regex anchored at index `i`. */
  function MatchAt(f: Field, s: string, i: nat): (r: Option<Match>)
    requires i <= |s|
    ensures r.Some? ==> r.value.start == i && r.value.capStart < r.value.capEnd <= |s|
  {
    if MarkerAt(s, i, Marker(f)) then
      var p := i + |Marker(f)|;
      Backtrack(f, s, i, p, WhitespaceRun(s, p))
    else None
  }

  /** The regex tried at every index of `s`. */
  function MatchTable(f: Field, s: string): (t: seq<Option<Match>>)
    ensures |t| == |s| + 1
  {
    seq(|s| + 1, j requires 0 <= j <= |s| => MatchAt(f, s, j))
  }

  /** The first index from `i` on that holds a match, or `|t|`. */
  function FirstMatchIndex(t: seq<Option<Match>>, i: nat): (j: nat)
    requires i <= |t|
    ensures i <= j <= |t|
    ensures j < |t| ==> t[j].Some?
    ensures forall k :: i <= k < j ==> t[k].None?
    decreases |t| - i
  {
    if i == |t| || t[i].Some? then i else FirstMatchIndex(t, i + 1)
  }

  lemma {:induction false} FirstMatchIndexSkip(t: seq<Option<Match>>, i: nat, j: nat)
    requires i <= j <= |t|
    requires forall k :: i <= k < j ==> t[k].None?
    ensures FirstMatchIndex(t, i) == FirstMatchIndex(t, j)
    decreases j - i
  {
    if i < j {
      FirstMatchIndexSkip(t, i + 1, j);
    }
  }

  /** `s.match(regex)`: the match at the leftmost index from `i` on. */
  function FindMatch(f: Field, s: string, i: nat): (r: Option<Match>)
    requires i <= |s|
    ensures r.Some? ==> i <= r.value.start <= |s| && r.value.capStart < r.value.capEnd <= |s|
  {
    var t := MatchTable(f, s);
    var j := FirstMatchIndex(t, i);
    if j < |t| then t[j] else None
  }

  /** What a match of the regex is, independently of how it is searched:
      the marker, whitespace, a non-empty capture of allowed characters
      that ends where the alternation succeeds and nowhere earlier. */
  predicate IsMatch(f: Field, s: string, m: Match) {
    && m.start + |Marker(f)| <= m.capStart < m.capEnd <= |s|
    && MarkerAt(s, m.start, Marker(f))
    && (forall k :: m.start + |Marker(f)| <= k < m.capStart ==> IsWhitespace(s[k]))
    && (forall k :: m.capStart <= k < m.capEnd ==> CaptureChar(f, s[k]))
    && EndsAt(f, s, m.capEnd)
    && (forall q :: m.capStart < q < m.capEnd ==> !EndsAt(f, s, q))
  }

  /** The captured text. */
  function Captured(s: string, m: Match): string
    requires m.capStart <= m.capEnd <= |s|
  {
    s[m.capStart..m.capEnd]
  }

  lemma {:induction false} ExtendCaptureSound(f: Field, s: string, q: nat)
    requires q <= |s|
    ensures ExtendCapture(f, s, q).Some? ==>
      var e := ExtendCapture(f, s, q).value;
      && q <= e <= |s| && EndsAt(f, s, e)
      && (forall k :: q <= k < e ==> CaptureChar(f, s[k]) && !EndsAt(f, s, k))
    decreases |s| - q
  {
    if !EndsAt(f, s, q) && q < |s| && CaptureChar(f, s[q]) {
      ExtendCaptureSound(f, s, q + 1);
    }
  }

  /** The lazy capture stops at the first index where the alternation
      succeeds, provided every character before it may be captured. */
  lemma {:induction false} ExtendCaptureReaches(f: Field, s: string, q: nat, e: nat)
    requires q <= e <= |s| && EndsAt(f, s, e)
    requires forall k :: q <= k < e ==> CaptureChar(f, s[k]) && !EndsAt(f, s, k)
    ensures ExtendCapture(f, s, q) == Some(e)
    decreases e - q
  {
    if q < e {
      ExtendCaptureReaches(f, s, q + 1, e);
    }
  }

  lemma {:induction false} BacktrackSound(f: Field, s: string, i: nat, p: nat, k: nat)
    requires p + k <= |s|
    ensures Backtrack(f, s, i, p, k).Some? ==>
      var m := Backtrack(f, s, i, p, k).value;
      && m.start == i && p <= m.capStart <= p + k
      && Capture(f, s, m.capStart) == Some(m.capEnd)
      && (forall c :: m.capStart < c <= p + k ==> Capture(f, s, c).None?)
    decreases k
  {
    if Capture(f, s, p + k).None? && k > 0 {
      BacktrackSound(f, s, i, p, k - 1);
    }
  }

  /** What the scanner finds at an index is a match of the regex there. */
  lemma MatchAtSound(f: Field, s: string, i: nat)
    requires i <= |s|
    ensures MatchAt(f, s, i).Some? ==> IsMatch(f, s, MatchAt(f, s, i).value)
  {
    match f
    case TitleField => TitleMatchAtSound(s, i);
    case DescriptionField => DescriptionMatchAtSound(s, i);
  }

  lemma TitleMatchAtSound(s: string, i: nat)
    requires i <= |s|
    ensures MatchAt(TitleField, s, i).Some? ==> IsMatch(TitleField, s, MatchAt(TitleField, s, i).value)
  {
    if MatchAt(TitleField, s, i).Some? {
      var p := i + 6;
      var n := WhitespaceRun(s, p);
      assert MarkerAt(s, i, Marker(TitleField));
      assert MatchAt(TitleField, s, i) == Backtrack(TitleField, s, i, p, n);
      var m := MatchAt(TitleField, s, i).value;
      BacktrackSound(TitleField, s, i, p, n);
      assert Capture(TitleField, s, m.capStart) == Some(m.capEnd);
      assert CaptureChar(TitleField, s[m.capStart]);
      assert ExtendCapture(TitleField, s, m.capStart + 1) == Some(m.capEnd);
      ExtendCaptureSound(TitleField, s, m.capStart + 1);
      assert forall k :: p <= k < m.capStart ==> IsWhitespace(s[k]);
      assert forall k :: m.capStart <= k < m.capEnd ==> CaptureChar(TitleField, s[k]);
      assert forall q :: m.capStart < q < m.capEnd ==> !EndsAt(TitleField, s, q);
    }
  }

  lemma DescriptionMatchAtSound(s: string, i: nat)
    requires i <= |s|
    ensures MatchAt(DescriptionField, s, i).Some? ==> IsMatch(DescriptionField, s, MatchAt(DescriptionField, s, i).value)
  {
    if MatchAt(DescriptionField, s, i).Some? {
      var p := i + 12;
      var n := WhitespaceRun(s, p);
      assert MarkerAt(s, i, Marker(DescriptionField));
      assert MatchAt(DescriptionField, s, i) == Backtrack(DescriptionField, s, i, p, n);
      var m := MatchAt(DescriptionField, s, i).value;
      BacktrackSound(DescriptionField, s, i, p, n);
      assert Capture(DescriptionField, s, m.capStart) == Some(m.capEnd);
      assert CaptureChar(DescriptionField, s[m.capStart]);
      assert ExtendCapture(DescriptionField, s, m.capStart + 1) == Some(m.capEnd);
      ExtendCaptureSound(DescriptionField, s, m.capStart + 1);
      assert forall k :: p <= k < m.capStart ==> IsWhitespace(s[k]);
      assert forall k :: m.capStart <= k < m.capEnd ==> CaptureChar(DescriptionField, s[k]);
      assert forall q :: m.capStart < q < m.capEnd ==> !EndsAt(DescriptionField, s, q);
    }
  }

  /** The search returns the match at the leftmost index where the regex
      matches at all. */
  lemma FindMatchLeftmost(f: Field, s: string, i: nat)
    requires i <= |s|
    ensures FindMatch(f, s, i).Some? ==>
      var m := FindMatch(f, s, i).value;
      && i <= m.start <= |s| && MatchAt(f, s, m.start) == Some(m)
      && (forall j :: i <= j < m.start ==> MatchAt(f, s, j).None?)
  {
    var t := MatchTable(f, s);
    var j := FirstMatchIndex(t, i);
    if j < |t| {
      assert t[j] == MatchAt(f, s, j);
      assert FindMatch(f, s, i) == t[j];
      forall k | i <= k < j ensures MatchAt(f, s, k).None? {
        assert t[k] == MatchAt(f, s, k);
      }
    }
  }

  /** Soundness of the search: what it finds is a match of the regex, at
      the leftmost index where the regex matches at all. */
  lemma FindMatchSound(f: Field, s: string, i: nat)
    requires i <= |s|
    ensures FindMatch(f, s, i).Some? ==>
      var m := FindMatch(f, s, i).value;
      && IsMatch(f, s, m) && i <= m.start
      && (forall j :: i <= j < m.start ==> MatchAt(f, s, j).None?)
  {
    FindMatchLeftmost(f, s, i);
    if FindMatch(f, s, i).Some? {
      MatchAtSound(f, s, FindMatch(f, s, i).value.start);
    }
  }

  /** The search fails exactly when the scanner succeeds at no index, and
      so exactly when the regex has no match starting from `i` on. */
  lemma FindMatchNone(f: Field, s: string, i: nat)
    requires i <= |s|
    ensures FindMatch(f, s, i).None? <==> forall j :: i <= j <= |s| ==> MatchAt(f, s, j).None?
    ensures FindMatch(f, s, i).None? <==> forall m :: IsMatch(f, s, m) ==> m.start < i
  {
    var t := MatchTable(f, s);
    var j := FirstMatchIndex(t, i);
    if j < |t| {
      assert t[j] == MatchAt(f, s, j);
      FindMatchSound(f, s, i);
    } else {
      forall k | i <= k <= |s| ensures MatchAt(f, s, k).None? {
        assert t[k] == MatchAt(f, s, k);
      }
      forall m | IsMatch(f, s, m) ensures m.start < i {
        MatchAtComplete(f, s, m);
      }
    }
  }

  /** The match the search returns starts no later than any match of the
      regex from `i` on. */
  lemma FindMatchFirst(f: Field, s: string, i: nat, m: Match)
    requires i <= |s| && IsMatch(f, s, m) && i <= m.start
    ensures FindMatch(f, s, i).Some? && FindMatch(f, s, i).value.start <= m.start
  {
    MatchAtComplete(f, s, m);
    FindMatchLeftmost(f, s, i);
    FindMatchNone(f, s, i);
  }

  /** Completeness of the scanner: wherever the regex matches, the anchored
      scanner succeeds, and, as the greedy `\s*` demands, its capture starts
      no earlier than that match's. */
  lemma MatchAtComplete(f: Field, s: string, m: Match)
    requires IsMatch(f, s, m)
    ensures MatchAt(f, s, m.start).Some?
    ensures MatchAt(f, s, m.start).value.capStart >= m.capStart
  {
    var p := m.start + |Marker(f)|;
    var n := WhitespaceRun(s, p);
    ExtendCaptureReaches(f, s, m.capStart + 1, m.capEnd);
    assert Capture(f, s, m.capStart) == Some(m.capEnd);
    BacktrackComplete(f, s, m.start, p, n, m.capStart);
    assert MarkerAt(s, m.start, Marker(f));
    assert MatchAt(f, s, m.start) == Backtrack(f, s, m.start, p, n);
  }

  /** Giving whitespace back finds a capture whenever one exists at some
      start it may give back to, and gives back no further than that start. */
  lemma {:induction false} BacktrackComplete(f: Field, s: string, i: nat, p: nat, k: nat, c: nat)
    requires p + k <= |s| && p <= c <= p + k
    requires Capture(f, s, c).Some?
    ensures Backtrack(f, s, i, p, k).Some?
    ensures Backtrack(f, s, i, p, k).value.capStart >= c
    decreases k
  {
    if Capture(f, s, p + k).None? {
      BacktrackComplete(f, s, i, p, k - 1, c);
    }
  }

  /** Indexes where the regex cannot match may be skipped. */
  lemma FindMatchSkip(f: Field, s: string, i: nat, j: nat)
    requires i <= j <= |s|
    requires forall k :: i <= k < j ==> MatchAt(f, s, k).None?
    ensures FindMatch(f, s, i) == FindMatch(f, s, j)
  {
    var t := MatchTable(f, s);
    forall k | i <= k < j ensures t[k].None? {
      assert t[k] == MatchAt(f, s, k);
    }
    FirstMatchIndexSkip(t, i, j);
  }

  /** The description pattern matches exactly when the text holds the
      marker with at least one character after it: with the `s` flag the
      capture can always run to the end of the text. */
  lemma DescriptionMatchIff(s: string)
    ensures FindMatch(DescriptionField, s, 0).Some?
        <==> exists i :: 0 <= i <= |s| && MarkerAt(s, i, "description:") && i + 12 < |s|
  {
    var f := DescriptionField;
    if exists i :: 0 <= i <= |s| && MarkerAt(s, i, "description:") && i + 12 < |s| {
      var i :| 0 <= i <= |s| && MarkerAt(s, i, "description:") && i + 12 < |s|;
      DescriptionMatchesAtMarker(s, i);
      FindMatchNone(f, s, 0);
    }
    if FindMatch(f, s, 0).Some? {
      FindMatchSound(f, s, 0);
    }
  }

  lemma DescriptionMatchesAtMarker(s: string, i: nat)
    requires MarkerAt(s, i, "description:") && i + 12 < |s|
    ensures MatchAt(DescriptionField, s, i).Some?
  {
    var f := DescriptionField;
    var p := i + 12;
    var n := WhitespaceRun(s, p);
    if p + n < |s| {
      ExtendCaptureReachesEnd(s, p + n + 1);
      assert Capture(f, s, p + n).Some?;
    } else {
      ExtendCaptureReachesEnd(s, p + n);
      assert Capture(f, s, p + n - 1).Some?;
      assert Backtrack(f, s, i, p, n - 1).Some?;
    }
  }

  /** With the `s` flag the capture always reaches an end. */
  lemma {:induction false} ExtendCaptureReachesEnd(s: string, q: nat)
    requires q <= |s|
    ensures ExtendCapture(DescriptionField, s, q).Some?
    decreases |s| - q
  {
    if q < |s| {
      ExtendCaptureReachesEnd(s, q + 1);
    }
  }

  /** The title pattern matches when the text holds the marker followed,
      somewhere, by a character that is not whitespace, and has no line
      terminator other than `\n` after the marker. */
  lemma TitleMatchesAfterMarker(s: string, i: nat, j: nat)
    requires MarkerAt(s, i, "title:")
    requires i + 6 <= j < |s| && !IsWhitespace(s[j])
    requires forall k :: i + 6 <= k < |s| ==> s[k] == '\n' || !IsLineTerminator(s[k])
    ensures FindMatch(TitleField, s, 0).Some?
  {
    var f := TitleField;
    var p := i + 6;
    var n := WhitespaceRun(s, p);
    assert p + n <= j;
    var e := FirstEnd(s, p + n + 1);
    ExtendCaptureReaches(f, s, p + n + 1, e);
    assert Capture(f, s, p + n) == Some(e);
    assert Backtrack(f, s, i, p, n) == Some(Match(i, p + n, e));
    assert MatchAt(f, s, i) == Some(Match(i, p + n, e));
    FindMatchNone(f, s, 0);
  }

  /** The first index from `q` on where the title's alternation succeeds,
      on a text whose only line terminator is `\n`. */
  function FirstEnd(s: string, q: nat): (e: nat)
    requires q <= |s|
    ensures q <= e <= |s| && EndsAt(TitleField, s, e)
    ensures forall k :: q <= k < e ==> !EndsAt(TitleField, s, k) && s[k] != '\n'
    decreases |s| - q
  {
    if EndsAt(TitleField, s, q) then q else FirstEnd(s, q + 1)
  }

  // ---------------------------------------------------------------------
  // parseLLMResponse

  const DefaultTitle := "Romantic Date Night"
  const DefaultDescription := "A special evening together"

  datatype ParsedIdea = ParsedIdea(title: string, description: string, idea: string)

  /** `lines.filter(line => line.trim())`: a line is kept when its
      trimmed form is non-empty, that is when it is not all whitespace
      (`TrimEmptyIff`). */
  function NonBlank(lines: seq<string>): (r: seq<string>)
    ensures |r| <= |lines|
    ensures forall k :: 0 <= k < |r| ==> !AllWhitespace(r[k])
    ensures forall x :: x in r <==> x in lines && !AllWhitespace(x)
  {
    if lines == [] then []
    else
      assert lines == [lines[0]] + lines[1..];
      if !AllWhitespace(lines[0]) then [lines[0]] + NonBlank(lines[1..])
      else NonBlank(lines[1..])
  }

  /** The filter works line by line, so the kept lines keep their order. */
  lemma {:induction false} NonBlankConcat(a: seq<string>, b: seq<string>)
    ensures NonBlank(a + b) == NonBlank(a) + NonBlank(b)
  {
    if a == [] {
      assert a + b == b;
    } else {
      assert (a + b)[0] == a[0];
      assert (a + b)[1..] == a[1..] + b;
      NonBlankConcat(a[1..], b);
    }
  }

  /** The non-blank lines of a text, in order. */
  function NonBlankLines(s: string): seq<string> {
    NonBlank(Split(s, '\n'))
  }

  /** The third tier: no marker matched. */
  function UnmarkedFallback(cleaned: string): ParsedIdea {
    var lines := NonBlankLines(cleaned);
    var title := if |lines| > 0 then lines[0] else DefaultTitle;
    var rest := if |lines| > 0 then Join(lines[1..], " ") else [];
    var description := if rest != [] then rest else if cleaned != [] then cleaned else DefaultDescription;
    ParsedIdea(title, description, cleaned)
  }

  /** `parseLLMResponse`. `trim` and then the edge-whitespace `replace`
      (which removes the same leading and trailing runs as `trim`) clean
      the text; then the marked fields, else the line split, else the fixed
      defaults. */
  function ParseReply(text: string): (r: ParsedIdea)
    ensures r.idea == Trim(text)
    ensures r.description != []
    ensures FindMatch(TitleField, r.idea, 0).None? ==> r.title != []
  {
    var cleaned := Trim(Trim(text));
    TrimIdempotent(text);
    var titleMatch := FindMatch(TitleField, cleaned, 0);
    var descMatch := FindMatch(DescriptionField, cleaned, 0);
    if titleMatch.None? && descMatch.None? then
      UnmarkedFallbackNonEmpty(cleaned);
      UnmarkedFallback(cleaned)
    else
      MarkedFieldsNonEmpty(cleaned);
      var title := if titleMatch.Some? then Trim(Captured(cleaned, titleMatch.value)) else DefaultTitle;
      var description := if descMatch.Some? then Trim(Captured(cleaned, descMatch.value)) else cleaned;
      ParsedIdea(title, description, cleaned)
  }

  /** On a trimmed text a matched description is never blank, and a text
      where some marker matched is not empty. */
  lemma MarkedFieldsNonEmpty(s: string)
    requires Trimmed(s)
    ensures FindMatch(TitleField, s, 0).Some? || FindMatch(DescriptionField, s, 0).Some? ==> s != []
    ensures FindMatch(DescriptionField, s, 0).Some? ==>
              Trim(Captured(s, FindMatch(DescriptionField, s, 0).value)) != []
  {
    var f := DescriptionField;
    if FindMatch(f, s, 0).Some? {
      var m := FindMatch(f, s, 0).value;
      FindMatchLeftmost(f, s, 0);
      DescriptionCaptureStartsSolid(s, m);
      TrimNonEmpty(Captured(s, m), 0);
    }
  }

  /** In a trimmed text the description capture starts on a character that
      is not whitespace: the greedy `\s*` gives nothing back, since with the
      `s` flag the capture after it always succeeds. */
  lemma DescriptionCaptureStartsSolid(s: string, m: Match)
    requires Trimmed(s) && m.start <= |s| && MatchAt(DescriptionField, s, m.start) == Some(m)
    ensures m.capStart < |s| && Captured(s, m)[0] == s[m.capStart] && !IsWhitespace(s[m.capStart])
  {
    var f := DescriptionField;
    var p := m.start + 12;
    var n := WhitespaceRun(s, p);
    assert MarkerAt(s, m.start, Marker(f));
    assert MatchAt(f, s, m.start) == Backtrack(f, s, m.start, p, n);
    assert p <= m.capStart < |s|;
    assert n > 0 ==> IsWhitespace(s[p + n - 1]);
    assert p + n < |s|;
    ExtendCaptureReachesEnd(s, p + n + 1);
    var e := ExtendCapture(f, s, p + n + 1).value;
    assert Capture(f, s, p + n) == Some(e);
    assert Backtrack(f, s, m.start, p, n) == Some(Match(m.start, p + n, e));
  }

  /** On a trimmed text, the line-split fallback yields a non-empty title and
      description, and there are no non-blank lines only for the empty text. */
  lemma UnmarkedFallbackNonEmpty(s: string)
    requires Trimmed(s)
    ensures NonBlankLines(s) == [] <==> s == []
    ensures UnmarkedFallback(s).title != [] && UnmarkedFallback(s).description != []
  {
    var pieces := Split(s, '\n');
    if s != [] {
      SplitFirstChar(s, '\n');
      assert NonBlankLines(s)[0] == pieces[0];
    }
    var lines := NonBlankLines(s);
    if |lines| > 1 {
      assert lines[1..][0] != [];
      JoinNonEmpty(lines[1..], " ");
    }
  }

  /** On trimmed text the edge-whitespace `replace` finds nothing to
      remove: `^\s+` needs whitespace at index 0, and `\s+$` needs a
      non-empty suffix that is all whitespace. */
  lemma EdgeReplaceFindsNothing(s: string)
    requires Trimmed(s)
    ensures s == [] || !IsWhitespace(s[0])
    ensures forall k :: 0 <= k < |s| ==> !AllWhitespace(s[k..])
  {
    forall k | 0 <= k < |s| ensures !AllWhitespace(s[k..]) {
      assert s[k..][|s| - k - 1] == s[|s| - 1];
    }
  }

  /** `idea` is the trimmed completion, and the second cleaning step changes
      nothing. */
  lemma ParseIdeaIsTrimmedText(text: string)
    ensures ParseReply(text).idea == Trim(text) == Trim(Trim(text))
  {
    TrimIdempotent(text);
  }

  /** The first two tiers: when a marker matches, each field is the trimmed
      capture of its regex, or the fixed fallback when only the other
      marker matched. */
  lemma ParseMarkedFields(text: string)
    ensures var s := Trim(text);
      var r := ParseReply(text);
      var tm := FindMatch(TitleField, s, 0);
      var dm := FindMatch(DescriptionField, s, 0);
      (tm.Some? || dm.Some?) ==>
        && (tm.Some? ==> r.title == Trim(Captured(s, tm.value)))
        && (tm.None? ==> r.title == DefaultTitle)
        && (dm.Some? ==> r.description == Trim(Captured(s, dm.value)))
        && (dm.None? ==> r.description == s)
  {
    TrimIdempotent(text);
  }

  /** The third tier: with no marker, the title is the first line of the
      cleaned text, and the description is the other non-blank lines joined
      by single spaces, or the whole text when there is no other such line;
      an empty completion gives the two fixed defaults. */
  lemma ParseUnmarked(text: string)
    requires FindMatch(TitleField, Trim(text), 0).None?
    requires FindMatch(DescriptionField, Trim(text), 0).None?
    ensures var s := Trim(text);
      var r := ParseReply(text);
      var lines := NonBlankLines(s);
      && (s == [] ==> r.title == DefaultTitle && r.description == DefaultDescription)
      && (s != [] ==> r.title == Split(s, '\n')[0] && Trim(r.title) != [])
      && (s != [] && |lines| > 1 ==> r.description == Join(lines[1..], " "))
      && (s != [] && |lines| <= 1 ==> r.description == s)
  {
    var s := Trim(text);
    TrimIdempotent(text);
    UnmarkedFallbackNonEmpty(s);
    if s != [] {
      SplitFirstChar(s, '\n');
      TrimNonEmpty(Split(s, '\n')[0], 0);
      var lines := NonBlankLines(s);
      if |lines| > 1 {
        assert lines[1..][0] != [];
        JoinNonEmpty(lines[1..], " ");
      }
    } else {
      assert Split(s, '\n') == [[]];
    }
  }

  /** What the title in a well-formed reply must avoid: a leading
      whitespace character, a line terminator, the description marker. */
  predicate PlainTitle(t: string) {
    && t != [] && !IsWhitespace(t[0])
    && (forall k :: 0 <= k < |t| ==> !IsLineTerminator(t[k]))
    && (forall j :: 0 <= j < |t| ==> !MarkerAt(t, j, "description:"))
  }

  /** The reply the prompt asks for. */
  function WellFormedReply(t: string, d: string): string {
    "Title: " + t + "\nDescription: " + d
  }

  /** A reply in the format the prompt asks for, with any whitespace around
      it: the parser extracts the two fields verbatim (the title trimmed)
      and keeps the reply itself as `idea`. */
  lemma ParseWellFormedReply(w1: string, t: string, d: string, w2: string)
    requires AllWhitespace(w1) && AllWhitespace(w2)
    requires PlainTitle(t)
    requires d != [] && Trimmed(d) && !Contains(d, "\n\n")
    ensures ParseReply(w1 + WellFormedReply(t, d) + w2) == ParsedIdea(Trim(t), d, WellFormedReply(t, d))
  {
    var s := WellFormedReply(t, d);
    var e := 7 + |t|;
    WellFormedReplyFields(t, d);
    TrimOfPadded(w1, s, w2);
    WellFormedTitle(t, d);
    WellFormedDescription(t, d);
    ParseMarkedFields(w1 + s + w2);
    var r := ParseReply(w1 + s + w2);
    assert Captured(s, Match(0, 7, e)) == t;
    assert r.title == Trim(t);
    assert Captured(s, Match(e + 1, e + 14, |s|)) == d;
    TrimOfTrimmed(d);
    assert r.description == d;
    assert r.idea == s;
  }

  lemma WellFormedReplyFields(t: string, d: string)
    requires t != [] && !IsWhitespace(t[0]) && d != [] && Trimmed(d)
    ensures var s := WellFormedReply(t, d);
      && |s| == 21 + |t| + |d| && s[7..7 + |t|] == t && s[21 + |t|..|s|] == d && Trimmed(s)
  {
    WellFormedReplyShape(t, d);
  }

  lemma WellFormedReplyShape(t: string, d: string)
    requires t != [] && !IsWhitespace(t[0]) && d != [] && Trimmed(d)
    ensures var s := WellFormedReply(t, d); var e := 7 + |t|;
      && |s| == e + 14 + |d|
      && s[..7] == "Title: " && s[7..e] == t && s[e] == '\n'
      && s[e + 1..e + 14] == "Description: " && s[e + 14..] == d
      && Trimmed(s)
  {
  }

  /** The title regex matches a well-formed reply at index 0 and captures the
      title. */
  lemma WellFormedTitle(t: string, d: string)
    requires PlainTitle(t) && d != [] && Trimmed(d)
    ensures FindMatch(TitleField, WellFormedReply(t, d), 0) == Some(Match(0, 7, 7 + |t|))
  {
    var f := TitleField;
    var s := WellFormedReply(t, d);
    var e := 7 + |t|;
    WellFormedReplyShape(t, d);
    forall j | 0 <= j < 6 ensures AsciiLower(s[j]) == "title:"[j] {
      assert s[j] == s[..7][j];
    }
    assert MarkerAt(s, 0, "title:");
    assert s[6] == ' ' && s[7] == t[0];
    assert WhitespaceRun(s, 7) == 0;
    assert WhitespaceRun(s, 6) == 1;
    forall k | 8 <= k < e
      ensures CaptureChar(f, s[k]) && !EndsAt(f, s, k)
    {
      assert s[k] == t[k - 7];
      NoMarkerBeforeNewline(s, t, k);
    }
    ExtendCaptureReaches(f, s, 8, e);
    assert Capture(f, s, 7) == Some(e);
    assert Backtrack(f, s, 0, 6, 1) == Some(Match(0, 7, e));
    assert MatchAt(f, s, 0) == Some(Match(0, 7, e));
  }

  /** The description regex first matches a well-formed reply at the start of
      its second line and captures the description. */
  lemma WellFormedDescription(t: string, d: string)
    requires PlainTitle(t) && d != [] && Trimmed(d) && !Contains(d, "\n\n")
    ensures FindMatch(DescriptionField, WellFormedReply(t, d), 0)
         == Some(Match(8 + |t|, 21 + |t|, |WellFormedReply(t, d)|))
  {
    var f := DescriptionField;
    var s := WellFormedReply(t, d);
    var e := 7 + |t|;
    WellFormedReplyShape(t, d);
    DescriptionMarkerPlace(t, d);
    forall k | 0 <= k < e + 1 ensures MatchAt(f, s, k).None? {
      assert !MarkerAt(s, k, "description:");
    }
    FindMatchSkip(f, s, 0, e + 1);
    WellFormedDescriptionAt(t, d);
    assert FindMatch(f, s, e + 1) == MatchAt(f, s, e + 1) by {
      assert MatchTable(f, s)[e + 1] == MatchAt(f, s, e + 1);
    }
  }

  /** The description regex matches a well-formed reply at the start of the
      second line. */
  lemma WellFormedDescriptionAt(t: string, d: string)
    requires PlainTitle(t) && d != [] && Trimmed(d) && !Contains(d, "\n\n")
    ensures 8 + |t| <= |WellFormedReply(t, d)|
    ensures MatchAt(DescriptionField, WellFormedReply(t, d), 8 + |t|)
         == Some(Match(8 + |t|, 21 + |t|, |WellFormedReply(t, d)|))
  {
    var f := DescriptionField;
    var s := WellFormedReply(t, d);
    var e := 7 + |t|;
    var dStart := e + 14;
    WellFormedReplyShape(t, d);
    DescriptionMarkerPlace(t, d);
    assert s[e + 13] == ' ' && s[dStart] == d[0];
    assert WhitespaceRun(s, dStart) == 0;
    assert WhitespaceRun(s, e + 13) == 1;
    DescriptionRunsToEnd(t, d);
    assert Capture(f, s, dStart) == Some(|s|);
    assert Backtrack(f, s, e + 1, e + 13, 1) == Some(Match(e + 1, dStart, |s|));
  }

  /** In a well-formed reply the description marker starts the second line
      and nowhere earlier. */
  lemma DescriptionMarkerPlace(t: string, d: string)
    requires PlainTitle(t) && d != [] && Trimmed(d)
    ensures var s := WellFormedReply(t, d);
      && (forall k :: 0 <= k < 8 + |t| ==> !MarkerAt(s, k, "description:"))
      && MarkerAt(s, 8 + |t|, "description:")
  {
    var s := WellFormedReply(t, d);
    var e := 7 + |t|;
    WellFormedReplyShape(t, d);
    forall k | 0 <= k < e + 1 ensures !MarkerAt(s, k, "description:") {
      if k < 7 {
        assert s[k] == s[..7][k];
        assert AsciiLower(s[k]) != 'd';
      } else if k < e {
        NoMarkerBeforeNewline(s, t, k);
      } else {
        assert AsciiLower(s[k]) != 'd';
      }
    }
    forall j | e + 1 <= j < e + 13 ensures AsciiLower(s[j]) == "description:"[j - e - 1] {
      assert s[j] == s[e + 1..e + 14][j - e - 1];
    }
  }

  /** The lazy description capture, with no blank line in the description,
      runs to the end of a well-formed reply. */
  lemma DescriptionRunsToEnd(t: string, d: string)
    requires t != [] && !IsWhitespace(t[0]) && d != [] && Trimmed(d) && !Contains(d, "\n\n")
    ensures ExtendCapture(DescriptionField, WellFormedReply(t, d), 22 + |t|) == Some(|WellFormedReply(t, d)|)
  {
    var f := DescriptionField;
    var s := WellFormedReply(t, d);
    var dStart := 21 + |t|;
    WellFormedReplyShape(t, d);
    forall k | dStart + 1 <= k < |s| ensures !EndsAt(f, s, k) {
      if k + 1 < |s| && s[k] == '\n' && s[k + 1] == '\n' {
        assert d[k - dStart..k - dStart + 2] == "\n\n" by {
          assert d[k - dStart] == s[k] && d[k - dStart + 1] == s[k + 1];
        }
        assert StartsWithAt(d, "\n\n", k - dStart);
      }
    }
    ExtendCaptureReaches(f, s, dStart + 1, |s|);
  }

  /** Inside the title, and across the newline that ends it, the marker
      `description:` does not start. */
  lemma NoMarkerBeforeNewline(s: string, t: string, k: nat)
    requires |s| > 7 + |t| && s[7..7 + |t|] == t && s[7 + |t|] == '\n'
    requires 7 <= k < 7 + |t|
    requires forall j :: 0 <= j < |t| ==> !MarkerAt(t, j, "description:")
    ensures !MarkerAt(s, k, "description:")
  {
    var e := 7 + |t|;
    if k + 12 <= e {
      MarkerShift(s, t, 7, k - 7, "description:");
    } else {
      assert AsciiLower(s[e]) != "description:"[e - k];
    }
  }

  // =====================================================================
  // The handler

  datatype HttpRequest = HttpRequest(httpMethod: string, body: IdeaRequest)

  /** The request the endpoint sends to the provider: the credential, the
      model name and the prompt as the single user message. */
  datatype ProviderRequest = ProviderRequest(apiKey: string, model: string, prompt: string)

  /** What the provider call yields: the completion text, or a thrown error
      with its `message` (empty when absent) and its `JSON.stringify` text. */
  datatype ProviderReply = Completion(content: string) | ProviderError(message: string, serialized: string)

  /** A response: the status and the JSON body (`None` for `res.end()`). */
  datatype HttpResponse = HttpResponse(status: nat, body: Option<ResponseJson>)

  /** The response together with the provider request made, if any. */
  datatype Exchange = Exchange(response: HttpResponse, providerCall: Option<ProviderRequest>)

  const MethodNotAllowed := "Method not allowed"
  const MissingFields := "Mood and budget are required"
  const KeyNotConfigured := "Hugging Face " + "API key not configured"
  const KeyHint := "Make sure HUGGINGFACE_API_KEY is set in .env.local and vercel dev is running"
  const GenerationFailed := "Failed to generate date idea"
  const ProviderErrorPrefix := "Hugging Face API error: "

  datatype ProviderOutcome = Generated(idea: ParsedIdea) | Failed(message: string)

  /** `callHuggingFace` once the provider has answered: parse the
      completion, or wrap the provider's error in a new message. */
  function CallHuggingFace(reply: ProviderReply): (r: ProviderOutcome)
    ensures reply.Completion? ==> r == Generated(ParseReply(reply.content))
    ensures reply.ProviderError? ==>
      && r.Failed? && |ProviderErrorPrefix| <= |r.message|
      && r.message[..|ProviderErrorPrefix|] == ProviderErrorPrefix
      && r.message[|ProviderErrorPrefix|..] == (if reply.message != [] then reply.message else reply.serialized)
  {
    match reply
    case Completion(content) => Generated(ParseReply(content))
    case ProviderError(message, serialized) =>
      Failed(ProviderErrorPrefix + (if message != [] then message else serialized))
  }

  /** `handler`: OPTIONS, then the method, then the required fields, then the
      credential, then the provider call. */
  function Handle(req: HttpRequest, apiKey: Option<string>, model: string,
                  provider: ProviderRequest -> ProviderReply): (x: Exchange)
    ensures req.httpMethod == "OPTIONS" ==> x == Exchange(HttpResponse(200, None), None)
    ensures req.httpMethod != "OPTIONS" && req.httpMethod != "POST" ==>
              x == Exchange(HttpResponse(405, Some(ErrorJson(MethodNotAllowed))), None)
    ensures req.httpMethod == "POST" && (req.body.mood == [] || req.body.budget == []) ==>
              x == Exchange(HttpResponse(400, Some(ErrorJson(MissingFields))), None)
    ensures req.httpMethod == "POST" && req.body.mood != [] && req.body.budget != []
            && (apiKey.None? || apiKey.value == []) ==>
              x.response.status == 500 && x.providerCall.None?
              && x.response.body == Some(ErrorJson(KeyNotConfigured).(hint := KeyHint))
    ensures x.providerCall.Some? <==>
              req.httpMethod == "POST" && req.body.mood != [] && req.body.budget != []
              && apiKey.Some? && apiKey.value != []
    ensures x.providerCall.Some? ==>
              x.providerCall.value == ProviderRequest(apiKey.value, model, Prompt(req.body))
  {
    if req.httpMethod == "OPTIONS" then
      Exchange(HttpResponse(200, None), None)
    else if req.httpMethod != "POST" then
      Exchange(HttpResponse(405, Some(ErrorJson(MethodNotAllowed))), None)
    else if req.body.mood == [] || req.body.budget == [] then
      Exchange(HttpResponse(400, Some(ErrorJson(MissingFields))), None)
    else if apiKey.None? || apiKey.value == [] then
      Exchange(HttpResponse(500, Some(ErrorJson(KeyNotConfigured).(hint := KeyHint))), None)
    else
      var call := ProviderRequest(apiKey.value, model, Prompt(req.body));
      match CallHuggingFace(provider(call))
      case Generated(idea) =>
        Exchange(HttpResponse(200, Some(ResponseJson([], [], [], idea.idea, idea.title, idea.description))), Some(call))
      case Failed(message) =>
        Exchange(HttpResponse(500, Some(ErrorJson(GenerationFailed).(message := message))), Some(call))
  }

  /** Once the provider is called, its completion gives a 200 response with
      the parsed idea, and its error gives a 500 response naming the
      failure and carrying the wrapped provider message. */
  lemma HandleProviderOutcome(req: HttpRequest, apiKey: Option<string>, model: string,
                              provider: ProviderRequest -> ProviderReply)
    requires Handle(req, apiKey, model, provider).providerCall.Some?
    ensures var x := Handle(req, apiKey, model, provider);
      var reply := provider(x.providerCall.value);
      && (reply.Completion? ==>
            var r := ParseReply(reply.content);
            x.response == HttpResponse(200, Some(ResponseJson([], [], [], r.idea, r.title, r.description))))
      && (reply.ProviderError? ==>
            && x.response.status == 500 && x.response.body.Some?
            && x.response.body.value.error == GenerationFailed
            && x.response.body.value.message[..|ProviderErrorPrefix|] == ProviderErrorPrefix)
  {
  }

  /** Every response the handler gives is 200, 400, 405 or 500, and a
      status other than 200 never comes with a parsed idea. */
  lemma HandleStatuses(req: HttpRequest, apiKey: Option<string>, model: string,
                       provider: ProviderRequest -> ProviderReply)
    ensures var x := Handle(req, apiKey, model, provider);
      && x.response.status in {200, 400, 405, 500}
      && (x.response.status != 200 ==> x.response.body.Some? && x.response.body.value.error != [])
      && (x.response.status == 200 && req.httpMethod == "POST" ==>
            x.providerCall.Some? && provider(x.providerCall.value).Completion?)
  {
  }

  /** The success scenario: `{mood: "romantic", budget: "medium"}` and a
      reply in the requested format. */
  const SunsetTitle := "Sunset Picnic"
  const SunsetDescription := "Watch the sunset " + "with wine and cheese."

  lemma SunsetPicnicScenario(apiKey: string, model: string, provider: ProviderRequest -> ProviderReply)
    requires apiKey != []
    requires forall call :: provider(call) == Completion(WellFormedReply(SunsetTitle, SunsetDescription))
    ensures Handle(HttpRequest("POST", IdeaRequest("romantic", "medium", [], [], [])), Some(apiKey), model, provider).response
         == HttpResponse(200, Some(ResponseJson([], [], [], WellFormedReply(SunsetTitle, SunsetDescription),
                                                SunsetTitle, SunsetDescription)))
  {
    SunsetReplyParses();
  }

  /** The reply of the success scenario parses into its two fields. */
  lemma SunsetReplyParses()
    ensures ParseReply(WellFormedReply(SunsetTitle, SunsetDescription))
         == ParsedIdea(SunsetTitle, SunsetDescription, WellFormedReply(SunsetTitle, SunsetDescription))
  {
    var t := SunsetTitle;
    var d := SunsetDescription;
    SunsetTitleIsPlain();
    assert !Contains(d, "\n\n") by {
      NotContainsByAnchor(d, "\n\n", 0, 0);
    }
    TrimOfTrimmed(t);
    ParseWellFormedReply([], t, d, []);
    assert [] + WellFormedReply(t, d) + [] == WellFormedReply(t, d);
  }

  lemma SunsetTitleIsPlain()
    ensures PlainTitle(SunsetTitle)
  {
    var t := SunsetTitle;
    forall j | 0 <= j < |t| ensures !MarkerAt(t, j, "description:") {
      if j + 12 <= |t| {
        assert j == 0 || j == 1;
        assert AsciiLower(t[j]) != 'd';
      }
    }
  }

  /** The missing-field scenario: an empty mood gets a 400 and the provider
      is not called. */
  lemma EmptyMoodScenario(budget: string, apiKey: Option<string>, model: string,
                          provider: ProviderRequest -> ProviderReply)
    ensures Handle(HttpRequest("POST", IdeaRequest([], budget, [], [], [])), apiKey, model, provider)
         == Exchange(HttpResponse(400, Some(ErrorJson("Mood and budget are required"))), None)
  {
  }
}
