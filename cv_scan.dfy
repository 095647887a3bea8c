/** The command-line CV analyser's own logic: parsing the keyword list the
    language model answers with, collecting a pasted job advert from the
    console, comparing keyword sets and banding the score, the fallback
    analysis, laying matches out in rows, and the menu and path prompts.
    The model's answers, `json.loads`, `input()` and the file system enter
    as oracle values. */
module CvScan {
  import opened Common

  // ---------------------------------------------------------------------
  // Splitting and joining on one separator character
  // ---------------------------------------------------------------------

  /** `sep.join(parts)`. */
  function Join(parts: seq<string>, sep: char): string
    decreases |parts|
  {
    if |parts| == 0 then ""
    else if |parts| == 1 then parts[0]
    else parts[0] + [sep] + Join(parts[1..], sep)
  }

  /** Python's `s.split(sep)` for a one-character separator: the pieces
      between separators, always at least one. */
  function Split(s: string, sep: char): (parts: seq<string>)
    ensures |parts| >= 1
    ensures forall i :: 0 <= i < |parts| ==> sep !in parts[i]
    decreases |s|
  {
    if |s| == 0 then [""]
    else if s[0] == sep then [""] + Split(s[1..], sep)
    else
      var rest := Split(s[1..], sep);
      [[s[0]] + rest[0]] + rest[1..]
  }

  /** Joining the pieces gives the text back. */
  lemma {:induction false} JoinSplit(s: string, sep: char)
    ensures Join(Split(s, sep), sep) == s
    decreases |s|
  {
    if |s| > 0 {
      var rest := Split(s[1..], sep);
      JoinSplit(s[1..], sep);
      if s[0] == sep {
        assert ([""] + rest)[1..] == rest;
      } else {
        var parts := [[s[0]] + rest[0]] + rest[1..];
        if |rest| > 1 {
          assert parts[1..] == rest[1..];
          assert Join(rest, sep) == rest[0] + [sep] + Join(rest[1..], sep);
        }
      }
      assert s == [s[0]] + s[1..];
    }
  }

  /** Splitting distributes over a separator: the pieces of `a + sep + b`
      are the pieces of `a` followed by those of `b`, in order. */
  lemma {:induction false} SplitAppend(a: string, b: string, sep: char)
    ensures Split(a + [sep] + b, sep) == Split(a, sep) + Split(b, sep)
    decreases |a|
  {
    var s := a + [sep] + b;
    var q := Split(b, sep);
    if |a| == 0 {
      assert s[0] == sep && s[1..] == b;
    } else {
      assert s[0] == a[0] && s[1..] == a[1..] + [sep] + b;
      SplitAppend(a[1..], b, sep);
      var r := Split(a[1..], sep);
      if a[0] != sep {
        assert (r + q)[0] == r[0];
        assert (r + q)[1..] == r[1..] + q;
      }
    }
  }

  /** Text without the separator is one piece. */
  lemma {:induction false} SplitSinglePiece(s: string, sep: char)
    requires sep !in s
    ensures Split(s, sep) == [s]
    decreases |s|
  {
    if |s| > 0 {
      assert s[0] in s;
      assert forall c :: c in s[1..] ==> c in s;
      SplitSinglePiece(s[1..], sep);
      assert s == [s[0]] + s[1..];
    }
  }

  /** Splitting what was joined from separator-free pieces gives the pieces
      back. */
  lemma {:induction false} SplitJoin(parts: seq<string>, sep: char)
    requires |parts| >= 1
    requires forall i :: 0 <= i < |parts| ==> sep !in parts[i]
    ensures Split(Join(parts, sep), sep) == parts
    decreases |parts|
  {
    SplitSinglePiece(parts[0], sep);
    if |parts| > 1 {
      SplitJoin(parts[1..], sep);
      SplitAppend(parts[0], Join(parts[1..], sep), sep);
      assert parts == [parts[0]] + parts[1..];
    }
  }

  // ---------------------------------------------------------------------
  // Keyword parsing (extract_keywords_ai)
  // ---------------------------------------------------------------------

  predicate IsLetter(c: char) {
    'a' <= c <= 'z' || 'A' <= c <= 'Z'
  }

  /** `kw.replace(' ', '').isalpha()`: at least one character besides
      spaces, and every one of them a letter. */
  predicate LettersAndSpaces(kw: string) {
    (exists i :: 0 <= i < |kw| && kw[i] != ' ')
    && forall i :: 0 <= i < |kw| ==> kw[i] == ' ' || IsLetter(kw[i])
  }

  /** The second filter: longer than two characters, letters and spaces. */
  predicate IsKeyword(kw: string) {
    |kw| > 2 && LettersAndSpaces(kw)
  }

  /** `[kw.strip().lower() for kw in pieces if kw.strip()]`. */
  function Normalize(pieces: seq<string>): (r: seq<string>)
    ensures |r| <= |pieces|
    ensures forall i :: 0 <= i < |r| ==> r[i] != ""
    decreases |pieces|
  {
    if |pieces| == 0 then []
    else if Strip(pieces[0]) == "" then Normalize(pieces[1..])
    else [Lower(Strip(pieces[0]))] + Normalize(pieces[1..])
  }

  /** `[kw for kw in keywords if len(kw) > 2 and kw.replace(' ', '').isalpha()]`. */
  function KeepKeywords(kws: seq<string>): (r: seq<string>)
    ensures |r| <= |kws|
    ensures forall i :: 0 <= i < |r| ==> IsKeyword(r[i]) && r[i] in kws
    ensures forall k :: k in kws && IsKeyword(k) ==> k in r
    decreases |kws|
  {
    if |kws| == 0 then []
    else if IsKeyword(kws[0]) then [kws[0]] + KeepKeywords(kws[1..])
    else KeepKeywords(kws[1..])
  }

  /** The keyword list parsed from the model's answer; an empty answer gives
      none. */
  function ParseKeywords(response: string): (r: seq<string>)
    ensures response == "" ==> r == []
    ensures forall i :: 0 <= i < |r| ==> IsKeyword(r[i])
  {
    if response == "" then [] else KeepKeywords(Normalize(Split(response, ',')))
  }

  /** Every non-blank piece survives, stripped and lower-cased. */
  lemma NormalizeKeeps(pieces: seq<string>)
    ensures forall j :: 0 <= j < |pieces| && Strip(pieces[j]) != "" ==> Lower(Strip(pieces[j])) in Normalize(pieces)
  {
    forall j | 0 <= j < |pieces| && Strip(pieces[j]) != ""
      ensures Lower(Strip(pieces[j])) in Normalize(pieces)
    {
      KeepAt(pieces, j);
    }
  }

  lemma KeepAt(pieces: seq<string>, j: nat)
    requires j < |pieces| && Strip(pieces[j]) != ""
    ensures Lower(Strip(pieces[j])) in Normalize(pieces)
  {
    CutAt(pieces, j);
    KeepOne(pieces[..j], pieces[j], pieces[j + 1..]);
  }

  /** A sequence is its part before `j`, its element at `j` and the rest. */
  lemma CutAt<T>(s: seq<T>, j: nat)
    requires j < |s|
    ensures s == s[..j] + [s[j]] + s[j + 1..]
  {
  }

  lemma KeepOne(a: seq<string>, p: string, b: seq<string>)
    requires Strip(p) != ""
    ensures Lower(Strip(p)) in Normalize(a + [p] + b)
  {
    NormalizeAppend(a + [p], b);
    NormalizeAppend(a, [p]);
    PieceKept(p);
  }

  /** A piece that does not strip to nothing is kept, stripped and
      lower-cased. */
  lemma PieceKept(p: string)
    requires Strip(p) != ""
    ensures Normalize([p]) == [Lower(Strip(p))]
  {
    assert [p][1..] == [];
  }

  /** Nothing but a stripped, lower-cased piece appears. */
  lemma {:induction false} NormalizeAddsNothing(pieces: seq<string>)
    ensures forall x :: x in Normalize(pieces) ==> exists j :: 0 <= j < |pieces| && x == Lower(Strip(pieces[j]))
    decreases |pieces|
  {
    if |pieces| > 0 {
      var rest := Normalize(pieces[1..]);
      NormalizeAddsNothing(pieces[1..]);
      var head := Lower(Strip(pieces[0]));
      assert Normalize(pieces) == if Strip(pieces[0]) == "" then rest else [head] + rest;
      forall x | x in Normalize(pieces)
        ensures exists j :: 0 <= j < |pieces| && x == Lower(Strip(pieces[j]))
      {
        if x in rest {
          var j :| 0 <= j < |pieces[1..]| && x == Lower(Strip(pieces[1..][j]));
          assert pieces[j + 1] == pieces[1..][j];
        } else {
          assert x == head;
        }
      }
    }
  }

  /** The parsed keywords are exactly the pieces of the answer, stripped and
      lower-cased, that then look like keywords. */
  lemma ParseMembers(response: string)
    requires response != ""
    ensures var pieces := Split(response, ',');
            && (forall j :: 0 <= j < |pieces| && IsKeyword(Lower(Strip(pieces[j]))) ==>
                  Lower(Strip(pieces[j])) in ParseKeywords(response))
            && (forall x :: x in ParseKeywords(response) ==>
                  IsKeyword(x) && exists j :: 0 <= j < |pieces| && x == Lower(Strip(pieces[j])))
  {
    var pieces := Split(response, ',');
    NormalizeKeeps(pieces);
    NormalizeAddsNothing(pieces);
    forall j | 0 <= j < |pieces| && IsKeyword(Lower(Strip(pieces[j])))
      ensures Strip(pieces[j]) != ""
    {
      assert |Lower(Strip(pieces[j]))| == |Strip(pieces[j])|;
    }
  }

  /** An answer without a comma is one entry: it is kept, stripped and
      lower-cased, iff it then looks like a keyword. */
  lemma ParsePiece(p: string)
    requires ',' !in p
    ensures ParseKeywords(p) == if IsKeyword(Lower(Strip(p))) then [Lower(Strip(p))] else []
  {
    SplitSinglePiece(p, ',');
  }

  lemma {:induction false} NormalizeAppend(p: seq<string>, q: seq<string>)
    ensures Normalize(p + q) == Normalize(p) + Normalize(q)
    decreases |p|
  {
    if |p| > 0 {
      assert (p + q)[1..] == p[1..] + q;
      NormalizeAppend(p[1..], q);
    } else {
      assert p + q == q;
    }
  }

  lemma {:induction false} KeepAppend(p: seq<string>, q: seq<string>)
    ensures KeepKeywords(p + q) == KeepKeywords(p) + KeepKeywords(q)
    decreases |p|
  {
    if |p| > 0 {
      assert (p + q)[1..] == p[1..] + q;
      KeepAppend(p[1..], q);
    } else {
      assert p + q == q;
    }
  }

  /** The empty answer is no exception: it splits into one empty piece,
      which is dropped. */
  lemma ParseViaSplit(a: string)
    ensures ParseKeywords(a) == KeepKeywords(Normalize(Split(a, ',')))
  {
    if a == "" {
      EmptySplitDropped();
    }
  }

  lemma EmptySplitDropped()
    ensures KeepKeywords(Normalize(Split("", ','))) == []
  {
    var e: string := "";
    assert Split(e, ',') == [e];
    assert |Strip(e)| == 0;
    BlankPieceDropped(e);
  }

  /** A piece that strips to nothing is dropped. */
  lemma BlankPieceDropped(p: string)
    requires Strip(p) == ""
    ensures Normalize([p]) == []
  {
    assert [p][1..] == [];
  }

  /** Input order is kept: the keywords of `a,b` are those of `a` followed
      by those of `b`. */
  lemma ParseKeepsOrder(a: string, b: string)
    ensures ParseKeywords(a + "," + b) == ParseKeywords(a) + ParseKeywords(b)
  {
    assert a + "," + b == a + [','] + b;
    ParseViaSplit(a);
    ParseViaSplit(b);
    SplitAppend(a, b, ',');
    NormalizeAppend(Split(a, ','), Split(b, ','));
    KeepAppend(Normalize(Split(a, ',')), Normalize(Split(b, ',')));
  }

  /** Every parsed keyword is stripped and lower-case. */
  lemma {:induction false} NormalizedAreClean(pieces: seq<string>)
    ensures forall i :: 0 <= i < |Normalize(pieces)| ==>
              NoEdgeSpace(Normalize(pieces)[i]) && Lower(Normalize(pieces)[i]) == Normalize(pieces)[i]
    decreases |pieces|
  {
    if |pieces| > 0 {
      NormalizedAreClean(pieces[1..]);
      if Strip(pieces[0]) != "" {
        LowerKeepsEdges(Strip(pieces[0]));
        LowerIdempotent(Strip(pieces[0]));
      }
    }
  }

  lemma LowerKeepsEdges(s: string)
    requires NoEdgeSpace(s)
    ensures NoEdgeSpace(Lower(s))
  {
  }

  lemma LowerIdempotent(s: string)
    ensures Lower(Lower(s)) == Lower(s)
  {
    var l := Lower(s);
    assert forall i :: 0 <= i < |l| ==> Lower(l)[i] == l[i];
  }

  // ---------------------------------------------------------------------
  // Console input (get_job_advert_text, get_user_choice, get_pdf_path)
  // ---------------------------------------------------------------------

  /** What one `input()` call yields: a line, or a keyboard interrupt. */
  datatype ConsoleEvent = Line(text: string) | Interrupt

  /** How collecting the job advert ends; `InputEnded` is the console
      running out before the advert ended, where `input()` raises. */
  datatype JobInput = Captured(text: string) | Cancelled | InputEnded

  predicate IsCancel(e: ConsoleEvent) {
    e.Interrupt? || Lower(Strip(e.text)) == "quit"
  }

  predicate IsBlank(e: ConsoleEvent) {
    e.Line? && Strip(e.text) == ""
  }

  /** Collection stops at event `i`: a cancel, or the second blank line in a
      row. */
  predicate StopsAt(events: seq<ConsoleEvent>, i: nat)
    requires i < |events|
  {
    IsCancel(events[i]) || (i > 0 && IsBlank(events[i]) && IsBlank(events[i - 1]))
  }

  function TextOf(e: ConsoleEvent): string {
    if e.Line? then e.text else ""
  }

  function Texts(events: seq<ConsoleEvent>): (r: seq<string>)
    ensures |r| == |events|
    decreases |events|
  {
    if |events| == 0 then [] else Texts(events[..|events| - 1]) + [TextOf(events[|events| - 1])]
  }

  lemma TextsSnoc(events: seq<ConsoleEvent>, i: nat)
    requires i < |events|
    ensures Texts(events[..i + 1]) == Texts(events[..i]) + [TextOf(events[i])]
  {
    assert events[..i + 1][..i] == events[..i];
  }

  /** The first event at or after `from` where collection stops, or the
      end of the input. */
  function FirstStop(events: seq<ConsoleEvent>, from: nat): (k: nat)
    requires from <= |events|
    ensures from <= k <= |events|
    ensures k < |events| ==> StopsAt(events, k)
    ensures forall j :: from <= j < k ==> !StopsAt(events, j)
    decreases |events| - from
  {
    if from == |events| then from
    else if StopsAt(events, from) then from
    else FirstStop(events, from + 1)
  }

  /** What collecting the job advert yields, stated on the first stop: the
      console running out before it, a cancel, or the second consecutive
      blank line; only the last gives an advert, with no surrounding
      whitespace. */
  function JobAdvert(events: seq<ConsoleEvent>): (r: JobInput)
    ensures var k := FirstStop(events, 0);
            && (r == InputEnded <==> k == |events|)
            && (r == Cancelled <==> k < |events| && IsCancel(events[k]))
            && (r.Captured? <==>
                  k < |events| && !IsCancel(events[k]) && k > 0 && IsBlank(events[k]) && IsBlank(events[k - 1]))
            && (r.Captured? ==> NoEdgeSpace(r.text))
  {
    var k := FirstStop(events, 0);
    if k == |events| then InputEnded
    else if IsCancel(events[k]) then Cancelled
    else Captured(Strip(Join(Texts(events[..k]), '\n')))
  }

  /** `get_job_advert_text`. Lines are kept until a cancel or the second
      consecutive blank line; that blank line is not kept but the one before
      it is. A cancel discards everything. `used` is the index of the event
      that ended collection. */
  method GetJobAdvertText(events: seq<ConsoleEvent>) returns (r: JobInput, used: nat)
    ensures used == FirstStop(events, 0)
    ensures r == JobAdvert(events)
  {
    var lines: seq<string> := [];
    var emptyLineCount := 0;
    var i := 0;
    while i < |events|
      invariant 0 <= i <= |events|
      invariant FirstStop(events, 0) == FirstStop(events, i)
      invariant lines == Texts(events[..i])
      invariant emptyLineCount == if i > 0 && IsBlank(events[i - 1]) then 1 else 0
    {
      var e := events[i];
      if IsCancel(e) {
        return Cancelled, i;
      } else if IsBlank(e) {
        emptyLineCount := emptyLineCount + 1;
        if emptyLineCount >= 2 {
          return Captured(Strip(Join(lines, '\n'))), i;
        }
      } else {
        emptyLineCount := 0;
      }
      TextsSnoc(events, i);
      lines := lines + [e.text];
      i := i + 1;
    }
    return InputEnded, i;
  }

  /** The menu's three features. */
  datatype Choice = Summarise | Compare | Exit

  /** The answer one event gives to the menu prompt, if it gives one. */
  function MenuAnswer(e: ConsoleEvent): (c: Option<Choice>)
    ensures e.Interrupt? ==> c == Some(Exit)
    ensures e.Line? ==> (c.Some? <==> Strip(e.text) in {"1", "2", "3"})
    ensures e.Line? && Strip(e.text) == "1" ==> c == Some(Summarise)
    ensures e.Line? && Strip(e.text) == "2" ==> c == Some(Compare)
    ensures e.Line? && Strip(e.text) == "3" ==> c == Some(Exit)
  {
    match e
    case Interrupt => Some(Exit)
    case Line(t) =>
      var s := Strip(t);
      if s == "1" then Some(Summarise)
      else if s == "2" then Some(Compare)
      else if s == "3" then Some(Exit)
      else None
  }

  /** `get_user_choice`: re-prompts until an accepted answer; `None` when
      the console runs out first. */
  method GetUserChoice(events: seq<ConsoleEvent>) returns (r: Option<Choice>, used: nat)
    ensures used <= |events|
    ensures forall j :: 0 <= j < used ==> MenuAnswer(events[j]).None?
    ensures r.Some? ==> used < |events| && r == MenuAnswer(events[used])
    ensures r.None? ==> used == |events|
  {
    var i := 0;
    while i < |events|
      invariant 0 <= i <= |events|
      invariant forall j :: 0 <= j < i ==> MenuAnswer(events[j]).None?
    {
      match events[i]
      case Interrupt =>
        return Some(Exit), i;
      case Line(t) =>
        var choice := Strip(t);
        if choice == "1" {
          return Some(Summarise), i;
        } else if choice == "2" {
          return Some(Compare), i;
        } else if choice == "3" {
          return Some(Exit), i;
        }
      i := i + 1;
    }
    return None, i;
  }

  /** The path a line names once stripped and user-expanded, if the prompt
      accepts it: non-empty, existing, ending in `.pdf` in any case. */
  function AcceptedPath(line: string, expand: string -> string, exists_: string -> bool): (r: Option<string>)
    ensures r.Some? <==>
              Strip(line) != "" && exists_(expand(Strip(line))) && EndsWith(Lower(expand(Strip(line))), ".pdf")
    ensures r.Some? ==> r.value == expand(Strip(line)) && |r.value| >= 4
  {
    var p := Strip(line);
    if p == "" then None
    else
      var q := expand(p);
      if !exists_(q) then None
      else if !EndsWith(Lower(q), ".pdf") then None
      else Some(q)
  }

  /** `get_pdf_path`: re-prompts until a line names an existing PDF path;
      `None` when the console runs out first. */
  method GetPdfPath(lines: seq<string>, expand: string -> string, exists_: string -> bool)
    returns (r: Option<string>, used: nat)
    ensures used <= |lines|
    ensures forall j :: 0 <= j < used ==> AcceptedPath(lines[j], expand, exists_).None?
    ensures r.Some? ==> used < |lines| && r == AcceptedPath(lines[used], expand, exists_)
    ensures r.Some? ==> r.value != "" && EndsWith(Lower(r.value), ".pdf") && exists_(r.value)
    ensures r.None? ==> used == |lines|
  {
    var i := 0;
    while i < |lines|
      invariant 0 <= i <= |lines|
      invariant forall j :: 0 <= j < i ==> AcceptedPath(lines[j], expand, exists_).None?
    {
      var pdfPath := Strip(lines[i]);
      if pdfPath != "" {
        pdfPath := expand(pdfPath);
        if exists_(pdfPath) && EndsWith(Lower(pdfPath), ".pdf") {
          return Some(pdfPath), i;
        }
      }
      i := i + 1;
    }
    return None, i;
  }

  // ---------------------------------------------------------------------
  // Comparison, score band and fallback analysis
  // ---------------------------------------------------------------------

  function SetOf(s: seq<string>): set<string> {
    set k | k in s
  }

  datatype Comparison = Comparison(matching: set<string>, missing: set<string>)

  /** `matching = cv ∩ job`, `missing = job − cv`: disjoint, covering the
      job keywords, the matches all in the CV and the missing none. */
  function CompareKeywords(cv: seq<string>, job: seq<string>): (c: Comparison)
    ensures c.matching !! c.missing
    ensures c.matching + c.missing == SetOf(job)
    ensures c.matching <= SetOf(cv) && c.missing !! SetOf(cv)
  {
    Comparison(SetOf(cv) * SetOf(job), SetOf(job) - SetOf(cv))
  }

  lemma CompareCounts(cv: seq<string>, job: seq<string>)
    ensures |CompareKeywords(cv, job).matching| + |CompareKeywords(cv, job).missing| == |SetOf(job)|
    ensures |CompareKeywords(cv, job).matching| <= |SetOf(job)|
  {
    var c := CompareKeywords(cv, job);
    assert c.matching + c.missing == SetOf(job);
  }

  datatype Band = Low | Moderate | Good | Excellent

  function Rank(b: Band): nat {
    match b
    case Low => 0
    case Moderate => 1
    case Good => 2
    case Excellent => 3
  }

  /** The score band for `matching` of `total` job keywords, compared
      exactly as percentages: below 30 low, below 50 moderate, below 70
      good, otherwise excellent. No band without job keywords. */
  function ScoreBand(matching: nat, total: nat): (b: Option<Band>)
    ensures b.None? <==> total == 0
  {
    if total == 0 then None
    else if 100 * matching < 30 * total then Some(Low)
    else if 100 * matching < 50 * total then Some(Moderate)
    else if 100 * matching < 70 * total then Some(Good)
    else Some(Excellent)
  }

  /** The percentage intervals the bands stand for. */
  lemma BandIntervals(matching: nat, total: nat)
    requires total > 0
    ensures ScoreBand(matching, total) == Some(Low) <==> 100 * matching < 30 * total
    ensures ScoreBand(matching, total) == Some(Moderate) <==> 30 * total <= 100 * matching < 50 * total
    ensures ScoreBand(matching, total) == Some(Good) <==> 50 * total <= 100 * matching < 70 * total
    ensures ScoreBand(matching, total) == Some(Excellent) <==> 70 * total <= 100 * matching
  {
  }

  /** More matches never give a lower band. */
  lemma BandMonotonic(m1: nat, m2: nat, total: nat)
    requires total > 0 && m1 <= m2
    ensures Rank(ScoreBand(m1, total).value) <= Rank(ScoreBand(m2, total).value)
  {
  }

  /** The result `ai_keyword_analysis` returns. */
  datatype Analysis = Analysis(
    matchAnalysis: string,
    missingCritical: seq<string>,
    recommendations: seq<string>,
    synonymMatches: seq<string>,
    priorityAdditions: seq<string>)

  /** What `json.loads` made of the model's answer. */
  datatype AnalysisReply = ParsedJson(analysis: Analysis) | Unparsable

  predicate Distinct(s: seq<string>) {
    forall i, j :: 0 <= i < j < |s| ==> s[i] != s[j]
  }

  /** `order` lists the elements of `s` once each: the order in which
      iterating over the set yields them. */
  predicate Enumerates(order: seq<string>, s: set<string>) {
    Distinct(order) && SetOf(order) == s
  }

  lemma {:induction false} DistinctCard(order: seq<string>)
    requires Distinct(order)
    ensures |SetOf(order)| == |order|
    decreases |order|
  {
    if |order| > 0 {
      var last := order[|order| - 1];
      var init := order[..|order| - 1];
      assert Distinct(init);
      DistinctCard(init);
      assert SetOf(order) == SetOf(init) + {last};
      assert last !in SetOf(init);
    }
  }

  function Min(a: nat, b: nat): nat { if a < b then a else b }

  const FallbackNote: string := "AI analysis temporarily unavailable, using basic comparison"
  const FallbackAdvice: seq<string> := ["Add missing keywords to your CV", "Focus on relevant experience"]

  /** The basic comparison used when the answer is not JSON: up to five
      critical and up to three priority keywords, all from job − cv, in
      the set's iteration order. */
  function FallbackAnalysis(cv: seq<string>, job: seq<string>, order: seq<string>): (a: Analysis)
    requires Enumerates(order, SetOf(job) - SetOf(cv))
    ensures |a.missingCritical| == Min(5, |SetOf(job) - SetOf(cv)|)
    ensures |a.priorityAdditions| == Min(3, |SetOf(job) - SetOf(cv)|)
    ensures forall k :: k in a.missingCritical ==> k in job && k !in cv
    ensures a.priorityAdditions == a.missingCritical[..|a.priorityAdditions|]
    ensures a.synonymMatches == []
  {
    DistinctCard(order);
    var critical := if |order| < 5 then order else order[..5];
    var priority := if |order| < 3 then order else order[..3];
    assert forall k :: k in critical ==> k in SetOf(order);
    Analysis(FallbackNote, critical, FallbackAdvice, [], priority)
  }

  /** `ai_keyword_analysis`: the parsed answer when there is one, the
      fallback otherwise. */
  function KeywordAnalysis(reply: AnalysisReply, cv: seq<string>, job: seq<string>, order: seq<string>): (a: Analysis)
    requires Enumerates(order, SetOf(job) - SetOf(cv))
    ensures reply.ParsedJson? ==> a == reply.analysis
    ensures reply.Unparsable? ==> forall k :: k in a.missingCritical + a.priorityAdditions ==> k in job && k !in cv
  {
    match reply
    case ParsedJson(x) => x
    case Unparsable => FallbackAnalysis(cv, job, order)
  }

  // ---------------------------------------------------------------------
  // Sorting the matches and laying them out in rows
  // ---------------------------------------------------------------------

  /** Python's string order: code point by code point, a proper prefix
      first. */
  predicate LexLess(a: string, b: string)
    decreases |a|
  {
    if |a| == 0 then |b| > 0
    else if |b| == 0 then false
    else if a[0] != b[0] then a[0] < b[0]
    else LexLess(a[1..], b[1..])
  }

  lemma {:induction false} LexIrreflexive(a: string)
    ensures !LexLess(a, a)
    decreases |a|
  {
    if |a| > 0 {
      LexIrreflexive(a[1..]);
    }
  }

  lemma {:induction false} LexTransitive(a: string, b: string, c: string)
    requires LexLess(a, b) && LexLess(b, c)
    ensures LexLess(a, c)
    decreases |a|
  {
    if |a| > 0 && |b| > 0 && |c| > 0 && a[0] == b[0] && b[0] == c[0] {
      LexTransitive(a[1..], b[1..], c[1..]);
    }
  }

  lemma {:induction false} LexTotal(a: string, b: string)
    requires a != b
    ensures LexLess(a, b) || LexLess(b, a)
    decreases |a|
  {
    if |a| > 0 && |b| > 0 && a[0] == b[0] {
      assert a == [a[0]] + a[1..] && b == [b[0]] + b[1..];
      LexTotal(a[1..], b[1..]);
    }
  }

  predicate IsLeast(m: string, s: set<string>) {
    m in s && forall x :: x in s && x != m ==> LexLess(m, x)
  }

  lemma {:induction false} LeastExists(s: set<string>)
    requires s != {}
    ensures exists m :: IsLeast(m, s)
    decreases |s|
  {
    var y :| y in s;
    var rest := s - {y};
    if rest == {} {
      assert s == {y};
      assert IsLeast(y, s);
    } else {
      LeastExists(rest);
      var m :| IsLeast(m, rest);
      if LexLess(m, y) {
        assert IsLeast(m, s);
      } else {
        LexTotal(m, y);
        forall x | x in s && x != y
          ensures LexLess(y, x)
        {
          if x != m {
            LexTransitive(y, m, x);
          }
        }
        assert IsLeast(y, s);
      }
    }
  }

  lemma LeastUnique(m1: string, m2: string, s: set<string>)
    requires IsLeast(m1, s) && IsLeast(m2, s)
    ensures m1 == m2
  {
    if m1 != m2 {
      LexTransitive(m1, m2, m1);
      LexIrreflexive(m1);
    }
  }

  predicate StrictlySorted(s: seq<string>) {
    forall i, j :: 0 <= i < j < |s| ==> LexLess(s[i], s[j])
  }

  lemma ConsSorted(m: string, tail: seq<string>)
    requires StrictlySorted(tail)
    requires forall i :: 0 <= i < |tail| ==> LexLess(m, tail[i])
    ensures StrictlySorted([m] + tail)
  {
    var r := [m] + tail;
    forall i, j | 0 <= i < j < |r|
      ensures LexLess(r[i], r[j])
    {
      if i > 0 {
        assert r[i] == tail[i - 1] && r[j] == tail[j - 1];
      } else {
        assert r[j] == tail[j - 1];
      }
    }
  }

  /** The least element put in front of the sorted rest sorts the whole set. */
  lemma LeastInFront(m: string, s: set<string>, tail: seq<string>)
    requires IsLeast(m, s)
    requires |tail| == |s - {m}| && SetOf(tail) == s - {m} && StrictlySorted(tail)
    ensures |[m] + tail| == |s| && SetOf([m] + tail) == s
    ensures StrictlySorted([m] + tail)
  {
    assert forall i :: 0 <= i < |tail| ==> tail[i] in SetOf(tail);
    ConsSorted(m, tail);
    assert SetOf([m] + tail) == {m} + SetOf(tail);
    assert s == (s - {m}) + {m};
  }

  /** `sorted(s)` for a set of strings. */
  ghost function SortedOf(s: set<string>): (r: seq<string>)
    ensures |r| == |s| && SetOf(r) == s
    ensures StrictlySorted(r)
    decreases |s|
  {
    if s == {} then []
    else
      LeastExists(s);
      var m :| IsLeast(m, s);
      var tail := SortedOf(s - {m});
      LeastInFront(m, s, tail);
      [m] + tail
  }

  /** `[s[i:i+4] for i in range(0, len(s), 4)]`. */
  function Rows(s: seq<string>): (rows: seq<seq<string>>)
    ensures forall i :: 0 <= i < |rows| ==> 1 <= |rows[i]| <= 4
    ensures forall i :: 0 <= i < |rows| - 1 ==> |rows[i]| == 4
    ensures Flatten(rows) == s
    decreases |s|
  {
    if |s| == 0 then []
    else if |s| <= 4 then
      assert Flatten([s]) == s + Flatten([s][1..]);
      [s]
    else
      var tail := Rows(s[4..]);
      assert ([s[..4]] + tail)[1..] == tail;
      assert s == s[..4] + s[4..];
      [s[..4]] + tail
  }

  function Flatten(rows: seq<seq<string>>): seq<string>
    decreases |rows|
  {
    if |rows| == 0 then [] else rows[0] + Flatten(rows[1..])
  }

  /** The matching keywords as printed: sorted, in rows of at most four
      that read back as the sorted list. */
  lemma MatchingRowsReadBack(cv: seq<string>, job: seq<string>)
    ensures var sorted := SortedOf(CompareKeywords(cv, job).matching);
            && Flatten(Rows(sorted)) == sorted
            && StrictlySorted(Flatten(Rows(sorted)))
            && SetOf(Flatten(Rows(sorted))) == SetOf(cv) * SetOf(job)
  {
  }
}
