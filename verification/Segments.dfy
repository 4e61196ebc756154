/**
 Search segmentation: every stopword-free window of tokens, tagged
 (utility_scripts/search_string_processor.py).
 */
module Segments {
  import opened Prelude
  import opened Strings

  type Stopwords = set<string>

  /** Tokens `start` to `end`, both included. */
  datatype Window = Window(start: nat, end: nat)

  predicate Clean(tokens: seq<string>, stop: Stopwords, start: nat, end: nat) {
    start <= end < |tokens| && forall i :: start <= i <= end ==> tokens[i] !in stop
  }

  /** The reference: all windows from (start, end) on in lexicographic order,
      filtered by the absence of stopwords. */
  function Windows(tokens: seq<string>, stop: Stopwords, start: nat, end: nat): seq<Window>
    requires start <= end
    decreases |tokens| - start, |tokens| - end
  {
    if start >= |tokens| then []
    else if end >= |tokens| then Windows(tokens, stop, start + 1, start + 1)
    else if Clean(tokens, stop, start, end) then [Window(start, end)] + Windows(tokens, stop, start, end + 1)
    else Windows(tokens, stop, start, end + 1)
  }

  function CleanWindows(tokens: seq<string>, stop: Stopwords): seq<Window> {
    Windows(tokens, stop, 0, 0)
  }

  // --------------------------------------------------------------------
  // Text
  // --------------------------------------------------------------------

  /** `" ".join(words)` */
  function Join(words: seq<string>): string {
    if words == [] then ""
    else if |words| == 1 then words[0]
    else Join(words[..|words| - 1]) + " " + words[|words| - 1]
  }

  function LowerChar(c: char): char {
    if 'A' <= c <= 'Z' then (c as int + 32) as char else c
  }

  function Lower(s: string): string {
    seq(|s|, i requires 0 <= i < |s| => LowerChar(s[i]))
  }

  predicate OccursAt(s: string, part: string, i: nat) {
    i + |part| <= |s| && s[i..i + |part|] == part
  }

  /** `part in s` */
  predicate Contains(s: string, part: string) {
    exists i: nat :: i <= |s| && OccursAt(s, part, i)
  }

  /** A phrase determines its words: splitting it at the blanks gives them back. */
  lemma {:induction false} JoinSplits(words: seq<string>)
    requires words != [] && forall w :: w in words ==> ' ' !in w
    ensures SplitOn(Join(words), ' ') == words
  {
    var front, last := words[..|words| - 1], words[|words| - 1];
    assert words == front + [last];
    if front == [] {
      SplitWhole(last, ' ');
    } else {
      JoinSplits(front);
      SplitLast(Join(front), ' ', last);
      assert Join(words) == Join(front) + [' '] + last;
    }
  }

  datatype Category = Category(key: string, tag: string)

  /** The tag of the first category whose key occurs in the phrase. */
  function Tag(phrase: string, categories: seq<Category>): string {
    if categories == [] then "none"
    else if Contains(Lower(phrase), categories[0].key) then categories[0].tag
    else Tag(phrase, categories[1..])
  }

  /** `d` is the letter `c` in lower case, or `c` itself when it is no capital. */
  predicate IsLower(c: char, d: char) {
    if 'A' <= c <= 'Z' then d as int == c as int + 32 else d == c
  }

  /** The key stands somewhere in the phrase, capitals read as small letters. */
  ghost predicate KeyOccurs(phrase: string, key: string) {
    exists i: nat :: KeyAt(phrase, key, i)
  }

  predicate KeyAt(phrase: string, key: string, i: nat) {
    i + |key| <= |phrase| && forall j :: 0 <= j < |key| ==> IsLower(phrase[i + j], key[j])
  }

  lemma OccursIff(phrase: string, key: string)
    ensures Contains(Lower(phrase), key) <==> KeyOccurs(phrase, key)
  {
    var s := Lower(phrase);
    forall i: nat ensures i <= |s| && OccursAt(s, key, i) <==> KeyAt(phrase, key, i) {
      if i + |key| <= |s| {
        var part := s[i..i + |key|];
        forall j | 0 <= j < |key| ensures part[j] == LowerChar(phrase[i + j]) { assert part[j] == s[i + j]; }
        if KeyAt(phrase, key, i) { assert part == key; }
      }
    }
  }

  /** Category `i` is the first one whose key occurs in the phrase. */
  ghost predicate IsFirst(phrase: string, categories: seq<Category>, i: nat) {
    && i < |categories| && KeyOccurs(phrase, categories[i].key)
    && forall j :: 0 <= j < i ==> !KeyOccurs(phrase, categories[j].key)
  }

  /** The tag is that of the first category whose key occurs in the phrase, and "none"
      only when no key occurs. */
  lemma {:induction false} TagMeaning(phrase: string, categories: seq<Category>)
    ensures forall i: nat :: IsFirst(phrase, categories, i) ==> Tag(phrase, categories) == categories[i].tag
    ensures (forall i: nat :: !IsFirst(phrase, categories, i)) ==> Tag(phrase, categories) == "none"
  {
    hide Contains, Lower, KeyOccurs;
    if categories != [] { OccursIff(phrase, categories[0].key); }
    if categories != [] && !KeyOccurs(phrase, categories[0].key) {
      var rest := categories[1..];
      TagMeaning(phrase, rest);
      forall i: nat ensures IsFirst(phrase, categories, i + 1) <==> IsFirst(phrase, rest, i) {
        FirstShift(phrase, categories, i);
      }
      forall i: nat | IsFirst(phrase, categories, i) ensures Tag(phrase, categories) == categories[i].tag {
        assert i > 0 && IsFirst(phrase, categories, (i - 1) + 1);
        assert rest[i - 1] == categories[i];
      }
      if forall i: nat :: !IsFirst(phrase, categories, i) {
        forall i: nat ensures !IsFirst(phrase, rest, i) {
          assert !IsFirst(phrase, categories, i + 1);
        }
      }
    } else if categories != [] {
      assert IsFirst(phrase, categories, 0);
    }
  }

  lemma FirstShift(phrase: string, categories: seq<Category>, i: nat)
    requires categories != [] && !KeyOccurs(phrase, categories[0].key)
    ensures IsFirst(phrase, categories, i + 1) <==> IsFirst(phrase, categories[1..], i)
  {
    hide KeyOccurs;
    var rest := categories[1..];
    assert forall j :: 0 <= j < |rest| ==> rest[j] == categories[j + 1];
    if IsFirst(phrase, rest, i) {
      forall j | 0 <= j < i + 1 ensures !KeyOccurs(phrase, categories[j].key) {
        if j > 0 { assert rest[j - 1] == categories[j]; }
      }
    }
  }

  datatype Result = Result(phrase: string, tag: string)

  function Tagged(words: seq<string>, categories: seq<Category>): Result {
    var phrase := Join(words);
    Result(phrase, Tag(phrase, categories))
  }

  predicate InBounds(ws: seq<Window>, n: nat) {
    forall i :: 0 <= i < |ws| ==> ws[i].start <= ws[i].end < n
  }

  function Results(tokens: seq<string>, ws: seq<Window>, categories: seq<Category>): seq<Result>
    requires InBounds(ws, |tokens|)
  {
    seq(|ws|, i requires 0 <= i < |ws| => Tagged(tokens[ws[i].start..ws[i].end + 1], categories))
  }

  // --------------------------------------------------------------------
  // What the reference contains
  // --------------------------------------------------------------------

  predicate Before(v: Window, w: Window) {
    v.start < w.start || (v.start == w.start && v.end < w.end)
  }

  ghost predicate Increasing(ws: seq<Window>) {
    forall i, j :: 0 <= i < j < |ws| ==> Before(ws[i], ws[j])
  }

  /** Exactly the clean windows not before (start, end). */
  lemma {:induction false} WindowsMembers(tokens: seq<string>, stop: Stopwords, start: nat, end: nat, w: Window)
    requires start <= end
    ensures w in Windows(tokens, stop, start, end) <==>
            Clean(tokens, stop, w.start, w.end) && !Before(w, Window(start, end))
    decreases |tokens| - start, |tokens| - end
  {
    if start < |tokens| {
      if end >= |tokens| {
        WindowsMembers(tokens, stop, start + 1, start + 1, w);
      } else {
        WindowsMembers(tokens, stop, start, end + 1, w);
        assert !Before(w, Window(start, end)) <==> w == Window(start, end) || !Before(w, Window(start, end + 1));
      }
    }
  }

  lemma IncreasingCons(w: Window, rest: seq<Window>)
    requires Increasing(rest) && forall j :: 0 <= j < |rest| ==> Before(w, rest[j])
    ensures Increasing([w] + rest)
  {
  }

  lemma {:induction false} WindowsOrdered(tokens: seq<string>, stop: Stopwords, start: nat, end: nat)
    requires start <= end
    ensures Increasing(Windows(tokens, stop, start, end))
    decreases |tokens| - start, |tokens| - end
  {
    if start < |tokens| {
      if end >= |tokens| {
        WindowsOrdered(tokens, stop, start + 1, start + 1);
      } else {
        WindowsOrdered(tokens, stop, start, end + 1);
        var rest := Windows(tokens, stop, start, end + 1);
        forall j | 0 <= j < |rest| ensures Before(Window(start, end), rest[j]) {
          WindowsMembers(tokens, stop, start, end + 1, rest[j]);
          assert rest[j] in rest;
        }
        IncreasingCons(Window(start, end), rest);
      }
    }
  }

  /** The segmenter's windows: every stopword-free contiguous window exactly once,
      in lexicographic (start, end) order. */
  lemma CleanWindowsMeaning(tokens: seq<string>, stop: Stopwords)
    ensures forall w: Window :: w in CleanWindows(tokens, stop) <==>
              w.start <= w.end < |tokens| && forall i :: w.start <= i <= w.end ==> tokens[i] !in stop
    ensures Increasing(CleanWindows(tokens, stop))
  {
    var ws := CleanWindows(tokens, stop);
    forall w ensures w in ws <==> Clean(tokens, stop, w.start, w.end) {
      WindowsMembers(tokens, stop, 0, 0, w);
    }
    WindowsOrdered(tokens, stop, 0, 0);
  }

  // --------------------------------------------------------------------
  // Runs between stopwords
  // --------------------------------------------------------------------

  /** Tokens `low` up to `high` hold no stopword. */
  predicate IsRun(tokens: seq<string>, stop: Stopwords, low: nat, high: nat) {
    low <= high <= |tokens| && forall i :: low <= i < high ==> tokens[i] !in stop
  }

  /** The windows the double loop visits from (start, end) on, inside [.., high). */
  function RunWindows(start: nat, end: nat, high: nat): seq<Window>
    requires start <= end <= high
    decreases high - start, high - end
  {
    if end < high then [Window(start, end)] + RunWindows(start, end + 1, high)
    else if start + 1 < high then RunWindows(start + 1, start + 1, high)
    else []
  }

  /** Past the stopword that ends a run nothing starting before it is clean. */
  lemma {:induction false} NothingAcross(tokens: seq<string>, stop: Stopwords, start: nat, end: nat, high: nat)
    requires start <= high <= end && high < |tokens| && tokens[high] in stop
    ensures Windows(tokens, stop, start, end) == Windows(tokens, stop, start + 1, start + 1)
    decreases |tokens| - end
  {
    if end < |tokens| { NothingAcross(tokens, stop, start, end + 1, high); }
  }

  lemma WindowsStep(tokens: seq<string>, stop: Stopwords, start: nat, end: nat)
    requires Clean(tokens, stop, start, end)
    ensures Windows(tokens, stop, start, end) == [Window(start, end)] + Windows(tokens, stop, start, end + 1)
  {
  }

  lemma WindowsTurn(tokens: seq<string>, stop: Stopwords, start: nat, high: nat)
    requires start < high <= |tokens|
    requires high == |tokens| || tokens[high] in stop
    ensures Windows(tokens, stop, start, high) == Windows(tokens, stop, start + 1, start + 1)
  {
    if high < |tokens| { NothingAcross(tokens, stop, start, high, high); }
  }

  lemma RunWindowsStep(start: nat, end: nat, high: nat)
    requires start <= end < high
    ensures RunWindows(start, end, high) == [Window(start, end)] + RunWindows(start, end + 1, high)
  {
  }

  lemma RunWindowsTurn(start: nat, high: nat)
    requires start < high
    ensures RunWindows(start, high, high) == if start + 1 < high then RunWindows(start + 1, start + 1, high) else []
  {
  }

  lemma RunParts(tokens: seq<string>, stop: Stopwords, start: nat, high: nat)
    requires start < high && IsRun(tokens, stop, start, high)
    ensures IsRun(tokens, stop, start + 1, high)
    ensures forall end: nat :: start <= end < high ==> Clean(tokens, stop, start, end)
  {
  }

  /** Inside a run the reference and the double loop agree. */
  lemma {:induction false} RunAgrees(tokens: seq<string>, stop: Stopwords, start: nat, end: nat, high: nat)
    requires start <= end <= high && start < high && IsRun(tokens, stop, start, high)
    requires high == |tokens| || tokens[high] in stop
    ensures Windows(tokens, stop, start, end) == RunWindows(start, end, high) + Windows(tokens, stop, high, high)
    decreases high - start, high - end
  {
    hide Windows, RunWindows, Clean;
    assert high <= |tokens|;
    RunParts(tokens, stop, start, high);
    hide IsRun;
    var after := Windows(tokens, stop, high, high);
    if end < high {
      RunAgrees(tokens, stop, start, end + 1, high);
      WindowsStep(tokens, stop, start, end);
      RunWindowsStep(start, end, high);
      Regroup([Window(start, end)], RunWindows(start, end + 1, high), after);
    } else {
      WindowsTurn(tokens, stop, start, high);
      RunWindowsTurn(start, high);
      if start + 1 < high { RunAgrees(tokens, stop, start + 1, start + 1, high); }
    }
  }

  /** Number of windows in a run of length `k`. */
  function Triangle(k: nat): nat {
    if k == 0 then 0 else k + Triangle(k - 1)
  }

  lemma {:induction false} TriangleClosed(k: nat)
    ensures 2 * Triangle(k) == k * (k + 1)
  {
    if k > 0 { TriangleClosed(k - 1); }
  }

  lemma {:induction false} RunWindowsCount(start: nat, end: nat, high: nat)
    requires start <= end <= high && start < high
    ensures |RunWindows(start, end, high)| == (high - end) + Triangle(high - start - 1)
    decreases high - start, high - end
  {
    if end < high { RunWindowsCount(start, end + 1, high); }
    else if start + 1 < high { RunWindowsCount(start + 1, start + 1, high); }
  }

  /** Lengths of the maximal stopword-free runs, `open` tokens of the first having
      been read already. */
  function RunLengths(tokens: seq<string>, stop: Stopwords, i: nat, open: nat): seq<nat>
    requires open <= i <= |tokens|
    decreases |tokens| - i
  {
    if i == |tokens| then (if open > 0 then [open] else [])
    else if tokens[i] in stop then (if open > 0 then [open] else []) + RunLengths(tokens, stop, i + 1, 0)
    else RunLengths(tokens, stop, i + 1, open + 1)
  }

  function SumTriangles(ks: seq<nat>): nat {
    if ks == [] then 0 else Triangle(ks[0]) + SumTriangles(ks[1..])
  }

  lemma SumStep(open: nat, rest: seq<nat>)
    ensures SumTriangles((if open > 0 then [open] else []) + rest) == Triangle(open) + SumTriangles(rest)
  {
    assert open > 0 ==> ([open] + rest)[1..] == rest;
    assert [] + rest == rest;
  }

  lemma {:induction false} CountFrom(tokens: seq<string>, stop: Stopwords, i: nat, open: nat)
    requires open <= i <= |tokens| && IsRun(tokens, stop, i - open, i)
    ensures |Windows(tokens, stop, i - open, i - open)| == SumTriangles(RunLengths(tokens, stop, i, open))
    decreases |tokens| - i
  {
    RunLengthsStep(tokens, stop, i, open);
    if i < |tokens| && tokens[i] !in stop {
      hide Windows, SumTriangles, RunLengths;
      CountFrom(tokens, stop, i + 1, open + 1);
    } else {
      OpenWindows(tokens, stop, i, open);
      hide Windows, SumTriangles, RunLengths;
      if i < |tokens| {
        CountFrom(tokens, stop, i + 1, 0);
        SumStep(open, RunLengths(tokens, stop, i + 1, 0));
      } else {
        SumStep(open, []);
        SumOfNone();
      }
    }
  }

  lemma SumOfNone()
    ensures SumTriangles([]) == 0
  {
  }

  lemma RunLengthsStep(tokens: seq<string>, stop: Stopwords, i: nat, open: nat)
    requires open <= i <= |tokens|
    ensures RunLengths(tokens, stop, i, open) ==
            if i < |tokens| && tokens[i] !in stop then RunLengths(tokens, stop, i + 1, open + 1)
            else (if open > 0 then [open] else []) + if i < |tokens| then RunLengths(tokens, stop, i + 1, 0) else []
  {
  }

  /** The windows of a finished run are counted; the others start after it. */
  lemma OpenWindows(tokens: seq<string>, stop: Stopwords, i: nat, open: nat)
    requires open <= i <= |tokens| && IsRun(tokens, stop, i - open, i) && (i == |tokens| || tokens[i] in stop)
    ensures |Windows(tokens, stop, i - open, i - open)| ==
            Triangle(open) + if i < |tokens| then |Windows(tokens, stop, i + 1, i + 1)| else 0
  {
    if i < |tokens| { NothingAcross(tokens, stop, i, i, i); }
    assert i == |tokens| ==> Windows(tokens, stop, i, i) == [];
    var low := i - open;
    if open > 0 {
      hide Windows, RunWindows;
      RunAgrees(tokens, stop, low, low, i);
      RunWindowsCount(low, low, i);
    }
  }

  /** The number of segments: the sum of k(k+1)/2 over the maximal runs. */
  lemma SegmentCount(tokens: seq<string>, stop: Stopwords)
    ensures |CleanWindows(tokens, stop)| == SumTriangles(RunLengths(tokens, stop, 0, 0))
  {
    CountFrom(tokens, stop, 0, 0);
  }

  // --------------------------------------------------------------------
  // The segmenter as it runs
  // --------------------------------------------------------------------

  method TagSearchToken(phrase: string, categories: seq<Category>) returns (tag: string)
    ensures tag == Tag(phrase, categories)
  {
    var phraseLower := Lower(phrase);
    for i := 0 to |categories|
      invariant Tag(phrase, categories[i..]) == Tag(phrase, categories)
    {
      assert categories[i..][0] == categories[i] && categories[i..][1..] == categories[i + 1..];
      if Contains(phraseLower, categories[i].key) {
        return categories[i].tag;
      }
    }
    return "none";
  }

  lemma {:induction false} RunWindowsBounds(start: nat, end: nat, high: nat)
    requires start <= end <= high
    ensures InBounds(RunWindows(start, end, high), high)
    decreases high - start, high - end
  {
    if end < high {
      RunWindowsBounds(start, end + 1, high);
    } else if start + 1 < high {
      RunWindowsBounds(start + 1, start + 1, high);
    }
  }

  /** The results of the double loop from (start, end) on. */
  function RunResults(segment: seq<string>, start: nat, end: nat, categories: seq<Category>): seq<Result>
    requires start <= end <= |segment|
  {
    RunWindowsBounds(start, end, |segment|);
    Results(segment, RunWindows(start, end, |segment|), categories)
  }

  lemma ResultsCons(tokens: seq<string>, w: Window, ws: seq<Window>, categories: seq<Category>)
    requires w.start <= w.end < |tokens| && InBounds(ws, |tokens|)
    ensures InBounds([w] + ws, |tokens|)
    ensures Results(tokens, [w] + ws, categories) ==
            [Tagged(tokens[w.start..w.end + 1], categories)] + Results(tokens, ws, categories)
  {
    hide Tagged;
    assert forall i :: 0 <= i < |ws| ==> ([w] + ws)[i + 1] == ws[i];
  }

  lemma RunResultsStep(segment: seq<string>, start: nat, end: nat, categories: seq<Category>)
    requires start <= end < |segment|
    ensures RunResults(segment, start, end, categories) ==
            [Tagged(segment[start..end + 1], categories)] + RunResults(segment, start, end + 1, categories)
  {
    hide RunWindows, Tagged, Results;
    RunWindowsStep(start, end, |segment|);
    RunWindowsBounds(start, end + 1, |segment|);
    ResultsCons(segment, Window(start, end), RunWindows(start, end + 1, |segment|), categories);
  }

  lemma RunResultsTurn(segment: seq<string>, start: nat, categories: seq<Category>)
    requires start < |segment|
    ensures RunResults(segment, start, |segment|, categories) ==
            if start + 1 < |segment| then RunResults(segment, start + 1, start + 1, categories) else []
  {
    hide RunWindows;
    RunWindowsTurn(start, |segment|);
  }

  lemma NoRunResults(segment: seq<string>, categories: seq<Category>)
    requires segment == []
    ensures RunResults(segment, 0, 0, categories) == []
  {
    assert RunWindows(0, 0, 0) == [];
  }

  /** The double loop over one segment. */
  method ProcessSegment(segment: seq<string>, categories: seq<Category>) returns (results: seq<Result>)
    ensures results == RunResults(segment, 0, 0, categories)
  {
    var n := |segment|;
    hide RunResults, Join, Tag;
    if n == 0 { NoRunResults(segment, categories); }
    results := [];
    ghost var all := RunResults(segment, 0, 0, categories);
    for start := 0 to n
      invariant all == results + if start < n then RunResults(segment, start, start, categories) else []
    {
      var phrase: seq<string> := [];
      for end := start to n
        invariant phrase == segment[start..end]
        invariant all == results + RunResults(segment, start, end, categories)
      {
        assert segment[start..end] + [segment[end]] == segment[start..end + 1];
        phrase := phrase + [segment[end]];
        var combined := Join(phrase);
        var category := TagSearchToken(combined, categories);
        RunResultsStep(segment, start, end, categories);
        Regroup(results, [Result(combined, category)], RunResults(segment, start, end + 1, categories));
        results := results + [Result(combined, category)];
      }
      RunResultsTurn(segment, start, categories);
    }
  }

  /** The windows of a run, numbered from the start of the run or of the text. */
  lemma {:induction false} RunShift(low: nat, start: nat, end: nat, k: nat)
    requires start <= end <= k
    ensures
      var ws, vs := RunWindows(start, end, k), RunWindows(low + start, low + end, low + k);
      |ws| == |vs| && forall i :: 0 <= i < |ws| ==> vs[i] == Window(low + ws[i].start, low + ws[i].end)
    decreases k - start, k - end
  {
    if end < k {
      RunShift(low, start, end + 1, k);
    } else if start + 1 < k {
      RunShift(low, start + 1, start + 1, k);
    }
  }

  lemma SliceOfSlice(tokens: seq<string>, low: nat, high: nat, i: nat, j: nat)
    requires low <= high <= |tokens| && i <= j <= high - low
    ensures tokens[low..high][i..j] == tokens[low + i..low + j]
  {
    forall k | 0 <= k < j - i ensures tokens[low..high][i..j][k] == tokens[low + i..low + j][k] {
      assert tokens[low..high][i + k] == tokens[low + i + k];
    }
  }

  lemma SegmentResults(tokens: seq<string>, low: nat, high: nat, categories: seq<Category>)
    requires low <= high <= |tokens|
    ensures InBounds(RunWindows(low, low, high), |tokens|)
    ensures RunResults(tokens[low..high], 0, 0, categories)
         == Results(tokens, RunWindows(low, low, high), categories)
  {
    hide RunWindows, Join, Tag;
    var ws, vs := RunWindows(0, 0, high - low), RunWindows(low, low, high);
    RunWindowsBounds(0, 0, high - low);
    RunWindowsBounds(low, low, high);
    RunShift(low, 0, 0, high - low);
    assert |tokens[low..high]| == high - low;
    ShiftedResults(tokens, low, high, ws, vs, categories);
  }

  lemma ShiftedResults(tokens: seq<string>, low: nat, high: nat, ws: seq<Window>, vs: seq<Window>,
                       categories: seq<Category>)
    requires low <= high <= |tokens| && InBounds(ws, high - low) && InBounds(vs, |tokens|) && |ws| == |vs|
    requires forall i :: 0 <= i < |ws| ==> vs[i] == Window(low + ws[i].start, low + ws[i].end)
    ensures Results(tokens[low..high], ws, categories) == Results(tokens, vs, categories)
  {
    hide Tagged;
    forall i | 0 <= i < |ws|
      ensures Results(tokens[low..high], ws, categories)[i] == Results(tokens, vs, categories)[i]
    {
      SliceOfSlice(tokens, low, high, ws[i].start, ws[i].end + 1);
    }
  }

  lemma ResultsConcat(tokens: seq<string>, x: seq<Window>, y: seq<Window>, categories: seq<Category>)
    requires InBounds(x, |tokens|) && InBounds(y, |tokens|)
    ensures InBounds(x + y, |tokens|)
    ensures Results(tokens, x + y, categories) == Results(tokens, x, categories) + Results(tokens, y, categories)
  {
  }

  lemma CleanInBounds(tokens: seq<string>, stop: Stopwords, start: nat)
    ensures InBounds(Windows(tokens, stop, start, start), |tokens|)
  {
    var ws := Windows(tokens, stop, start, start);
    forall i | 0 <= i < |ws| ensures ws[i].start <= ws[i].end < |tokens| {
      WindowsMembers(tokens, stop, start, start, ws[i]);
    }
  }

  /** The phrase of the window's words, with its tag. */
  predicate IsResult(r: Result, tokens: seq<string>, w: Window, categories: seq<Category>) {
    && w.start <= w.end < |tokens|
    && r.phrase == Join(tokens[w.start..w.end + 1]) && r.tag == Tag(r.phrase, categories)
  }

  lemma ResultsMeaning(tokens: seq<string>, ws: seq<Window>, categories: seq<Category>)
    requires InBounds(ws, |tokens|)
    ensures |Results(tokens, ws, categories)| == |ws|
    ensures forall i :: 0 <= i < |ws| ==> IsResult(Results(tokens, ws, categories)[i], tokens, ws[i], categories)
  {
    hide Tag, Join;
  }

  /** The loop over the tokens that cuts segments at stopwords: the results are
      those of the clean windows, in their order. */
  method CreateSearchSegments(tokens: seq<string>, stop: Stopwords, categories: seq<Category>)
    returns (results: seq<Result>)
    ensures InBounds(CleanWindows(tokens, stop), |tokens|)
    ensures results == Results(tokens, CleanWindows(tokens, stop), categories)
    ensures |results| == |CleanWindows(tokens, stop)|
    ensures forall i :: 0 <= i < |results| ==>
              IsResult(results[i], tokens, CleanWindows(tokens, stop)[i], categories)
  {
    hide Results, RunResults, RunWindows, Windows, IsResult;
    CleanInBounds(tokens, stop, 0);
    var from := 0;    // segment_indices[-1]
    results := [];
    ghost var visited: seq<Window> := [];
    ghost var all := CleanWindows(tokens, stop);
    assert Results(tokens, [], categories) == [] by { NoResults(tokens, categories); }
    for i := 0 to |tokens|
      invariant from <= i && IsRun(tokens, stop, from, i)
      invariant all == visited + Windows(tokens, stop, from, from)
      invariant InBounds(visited, |tokens|) && results == Results(tokens, visited, categories)
    {
      if tokens[i] in stop {
        if from != i {
          var segment := tokens[from..i];
          var more := ProcessSegment(segment, categories);
          SegmentResults(tokens, from, i, categories);
          RunAgrees(tokens, stop, from, from, i);
          ResultsConcat(tokens, visited, RunWindows(from, from, i), categories);
          results := results + more;
          visited := visited + RunWindows(from, from, i);
        }
        NothingAcross(tokens, stop, i, i, i);
        from := i + 1;
      }
    }
    if from < |tokens| {
      var segment := tokens[from..];
      var more := ProcessSegment(segment, categories);
      assert segment == tokens[from..|tokens|];
      SegmentResults(tokens, from, |tokens|, categories);
      RunAgrees(tokens, stop, from, from, |tokens|);
      ResultsConcat(tokens, visited, RunWindows(from, from, |tokens|), categories);
      assert all == (visited + RunWindows(from, from, |tokens|)) + Windows(tokens, stop, |tokens|, |tokens|);
      results := results + more;
      visited := visited + RunWindows(from, from, |tokens|);
    }
    NoWindows(tokens, stop);
    assert all == visited;
    ResultsMeaning(tokens, all, categories);
  }

  lemma NoWindows(tokens: seq<string>, stop: Stopwords)
    ensures Windows(tokens, stop, |tokens|, |tokens|) == []
  {
  }

  lemma NoResults(tokens: seq<string>, categories: seq<Category>)
    ensures Results(tokens, [], categories) == []
  {
  }
}
