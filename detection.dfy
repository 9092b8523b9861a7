/**
 * The decision logic of the periodic foreground-application handler in components/todo.tsx:
 * which ticks are processed (allow-list and 30-second throttle), how the small model's
 * grammar-constrained verdict and the large model's streamed verdict are read, the
 * nearest-neighbour duplicate test, and the resulting sequence of inserts.
 *
 * The host's similarity search, the two inference calls and the screen reader are oracles:
 * their answers are parameters here.
 */
module Detection {
  import opened Wrappers
  import opened JsStrings

  /** Applications and URL fragments the handler reacts to, in the source's order. */
  const SupportedApps: seq<string> := ["Slack", "Messages", "app.slack.com", "Outlook", "mail.google.com"]
  /** Minimum gap between two processed ticks. */
  const ThrottleMs: Millis := 30000
  /** A nearest neighbour whose combined similarity exceeds this magnitude is a duplicate. */
  const DuplicateThreshold: real := 0.90
  /** What the small model's grammar emits before a task. */
  const SlmPrefix: string := "Task assigned : "
  /** The large model's rejection sentinel. */
  const NotAssigned: string := "Task not assigned"
  // The literal head of the regular expression Task assigned\s*:\s* .
  const AssignedWord: string := "Task assigned"

  // ---------------------------------------------------------------------------
  // Eligibility

  /** One `supportedApps.some` test: the application name equals `app`, or a defined URL contains it. */
  predicate AppMatches(app: string, appName: string, url: Option<string>)
  {
    appName == app || (url.Some? && Contains(url.value, app))
  }

  /** `apps.some(app => ...)`, scanning left to right. */
  predicate AnyMatches(apps: seq<string>, appName: string, url: Option<string>)
  {
    apps != [] && (AppMatches(apps[0], appName, url) || AnyMatches(apps[1..], appName, url))
  }

  predicate Supported(appName: string, url: Option<string>)
  {
    AnyMatches(SupportedApps, appName, url)
  }

  /** A tick is processed: the device runs the small model, the window is allow-listed and the throttle has expired. */
  predicate Accepts(slmCapable: bool, appName: string, url: Option<string>, now: Millis, lastCallTime: Millis)
  {
    slmCapable && Supported(appName, url) && now - lastCallTime >= ThrottleMs
  }

  /** The scan finds a match exactly when some entry of the list matches. */
  lemma {:induction false} AnyMatchesIff(apps: seq<string>, appName: string, url: Option<string>)
    ensures AnyMatches(apps, appName, url) <==> exists i :: 0 <= i < |apps| && AppMatches(apps[i], appName, url)
  {
    if apps != [] {
      AnyMatchesIff(apps[1..], appName, url);
      if AnyMatches(apps[1..], appName, url) {
        var i :| 0 <= i < |apps[1..]| && AppMatches(apps[1..][i], appName, url);
        assert AppMatches(apps[i + 1], appName, url);
      }
      if exists i :: 0 <= i < |apps| && AppMatches(apps[i], appName, url) {
        var i :| 0 <= i < |apps| && AppMatches(apps[i], appName, url);
        if i > 0 { assert AppMatches(apps[1..][i - 1], appName, url); }
      }
    }
  }

  /** A window is supported iff its name is on the list or its URL (when there is one) contains a list entry. */
  lemma SupportedIff(appName: string, url: Option<string>)
    ensures Supported(appName, url) <==>
      (appName in SupportedApps || (url.Some? && exists app :: app in SupportedApps && Contains(url.value, app)))
  {
    AnyMatchesIff(SupportedApps, appName, url);
    if url.Some? && exists app :: app in SupportedApps && Contains(url.value, app) {
      var app :| app in SupportedApps && Contains(url.value, app);
      var i :| 0 <= i < |SupportedApps| && SupportedApps[i] == app;
      assert AppMatches(SupportedApps[i], appName, url);
    }
    if appName in SupportedApps {
      var i :| 0 <= i < |SupportedApps| && SupportedApps[i] == appName;
      assert AppMatches(SupportedApps[i], appName, url);
    }
  }

  /** Two processed ticks are at least the throttle apart: after a tick at `t` only a tick at `t + 30000` or later is processed. */
  lemma ThrottleSpacing(appName: string, url: Option<string>, t: Millis, t': Millis)
    requires Accepts(true, appName, url, t', t)
    ensures t' >= t + ThrottleMs
  {
  }

  /** Slack ticks at t, t + 10 s and t + 31 s: the first and the third are processed, the second is throttled. */
  lemma SlackTicks(t: Millis, last: Millis)
    requires t - last >= ThrottleMs
    ensures Accepts(true, "Slack", None, t, last)
    ensures !Accepts(true, "Slack", None, t + 10000, t)
    ensures Accepts(true, "Slack", None, t + 31000, t)
  {
    assert AppMatches(SupportedApps[0], "Slack", None);
  }

  // ---------------------------------------------------------------------------
  // Duplicate test

  /** A JavaScript number as the search reports it: finite, infinite (either sign) or NaN. */
  datatype Similarity = Finite(value: real) | Infinite | NaN

  /** One hit of the host's similarity search. */
  datatype SearchMatch = SearchMatch(combinedSimilarity: Similarity)

  function Abs(x: real): real
  {
    if x < 0.0 then -x else x
  }

  /** `Math.abs(x) > 0.90`: infinities pass, and NaN compares false. */
  predicate AboveThreshold(x: Similarity)
  {
    match x
    case Finite(v) => Abs(v) > DuplicateThreshold
    case Infinite => true
    case NaN => false
  }

  /** `isDuplicateTask` on the result of a top-1 search: no hit is not a duplicate; otherwise strictly above the threshold in magnitude. */
  predicate IsDuplicate(closest: seq<SearchMatch>)
  {
    |closest| != 0 && AboveThreshold(closest[0].combinedSimilarity)
  }

  /** The threshold is strict and symmetric in sign; an empty search and a NaN score are never a duplicate. */
  lemma DuplicateThresholdStrict(x: real)
    ensures !IsDuplicate([])
    ensures IsDuplicate([SearchMatch(Finite(x))]) <==> (x > 0.90 || x < -0.90)
    ensures !IsDuplicate([SearchMatch(Finite(0.90))]) && !IsDuplicate([SearchMatch(Finite(-0.90))])
    ensures !IsDuplicate([SearchMatch(NaN)]) && IsDuplicate([SearchMatch(Infinite)])
  {
  }

  // ---------------------------------------------------------------------------
  // The small model's verdict

  /** `slmTask.startsWith("Task assigned : ")` then `slmTask.replace("Task assigned : ", "")`. */
  function SlmVerdict(slm: string): Option<string>
  {
    if StartsWith(slm, SlmPrefix) then Some(ReplaceFirst(slm, SlmPrefix, "")) else None
  }

  /** A verdict exists exactly for outputs with the prefix, and it is the text after the prefix. */
  lemma SlmVerdictIsSuffix(slm: string)
    ensures SlmVerdict(slm).Some? <==> StartsWith(slm, SlmPrefix)
    ensures SlmVerdict(slm).Some? ==> SlmVerdict(slm).value == slm[|SlmPrefix|..]
  {
    if StartsWith(slm, SlmPrefix) {
      ReplacePrefix(slm, SlmPrefix);
    }
  }

  /** Reading back what the grammar's task branch produces returns the task. */
  lemma SlmRoundTrip(task: string)
    ensures SlmVerdict(SlmPrefix + task) == Some(task)
  {
    assert (SlmPrefix + task)[..|SlmPrefix|] == SlmPrefix;
    SlmVerdictIsSuffix(SlmPrefix + task);
    assert (SlmPrefix + task)[|SlmPrefix|..] == task;
  }

  // ---------------------------------------------------------------------------
  // The large model's verdict: /Task assigned\s*:\s*/ without flags

  /** A greedy `\s*` starting at `i`: the end of the longest whitespace run there. */
  function SkipWhitespace(s: string, i: nat): (j: nat)
    requires i <= |s|
    ensures i <= j <= |s|
    ensures AllWhitespace(s[i..j])
    ensures j == |s| || !IsWhitespace(s[j])
    decreases |s| - i
  {
    if i < |s| && IsWhitespace(s[i]) then
      SkipWhitespace(s, i + 1)
    else i
  }

  /**
   * Where a match of the pattern starting at `i` ends, if one starts there. Because ':' is
   * not whitespace, the first `\s*` never has to give characters back, so the greedy
   * reading is the only one; the second `\s*` takes the whole whitespace run.
   */
  function MatchAt(s: string, i: nat): Option<nat>
    requires i <= |s|
  {
    if !OccursAt(s, AssignedWord, i) then None
    else
      var j := SkipWhitespace(s, i + |AssignedWord|);
      if j < |s| && s[j] == ':' then Some(SkipWhitespace(s, j + 1)) else None
  }

  /** Leftmost start, at or after `from`, of a match; with its end. */
  function FirstMatch(s: string, from: nat): (r: Option<(nat, nat)>)
    requires from <= |s|
    ensures r.Some? ==> from <= r.value.0 <= |s| && MatchAt(s, r.value.0) == Some(r.value.1)
    ensures r.Some? ==> forall k :: from <= k < r.value.0 ==> MatchAt(s, k).None?
    ensures r.None? ==> forall k :: from <= k <= |s| ==> MatchAt(s, k).None?
    decreases |s| - from
  {
    match MatchAt(s, from)
    case Some(e) => Some((from, e))
    case None => if from == |s| then None else FirstMatch(s, from + 1)
  }

  // `/Task assigned\s*:\s*/.test(s)`
  predicate PatternFound(s: string)
  {
    FirstMatch(s, 0).Some?
  }

  /**
   * The large model's reply read as in the source: rejected when it contains the sentinel
   * or lacks the pattern; otherwise the reply with its leftmost match removed (not trimmed).
   */
  function LlmVerdict(llm: string): Option<string>
  {
    if Contains(llm, NotAssigned) then None
    else match FirstMatch(llm, 0)
      case None => None
      case Some(m) => Some(llm[..m.0] + llm[m.1..])
  }

  /** `SkipWhitespace` runs at least across a whitespace stretch `s[i..j]`. */
  lemma {:induction false} SkipCrosses(s: string, i: nat, j: nat)
    requires i <= j <= |s| && AllWhitespace(s[i..j])
    ensures SkipWhitespace(s, i) >= j
    decreases j - i
  {
    if i < j {
      assert IsWhitespace(s[i..j][0]);
      assert AllWhitespace(s[i + 1..j]);
      SkipCrosses(s, i + 1, j);
    }
  }

  /** `SkipWhitespace` stops no later than the first non-whitespace character at or after `i`. */
  lemma {:induction false} SkipStops(s: string, i: nat, e: nat)
    requires i <= e <= |s| && (e == |s| || !IsWhitespace(s[e]))
    ensures SkipWhitespace(s, i) <= e
    decreases e - i
  {
    if i < e && IsWhitespace(s[i]) {
      SkipStops(s, i + 1, e);
    }
  }

  /**
   * Reference reading of the pattern: a match starts at `i` exactly when "Task assigned" is
   * there, followed by whitespace only and then ':'. Its end is past a maximal whitespace run.
   */
  lemma MatchAtIff(s: string, i: nat)
    requires i <= |s|
    ensures MatchAt(s, i).Some? <==>
      OccursAt(s, AssignedWord, i) &&
      exists j :: i + |AssignedWord| <= j < |s| && AllWhitespace(s[i + |AssignedWord|..j]) && s[j] == ':'
    ensures MatchAt(s, i).Some? ==>
      var e := MatchAt(s, i).value;
      i + |AssignedWord| < e <= |s| && s[i..i + |AssignedWord|] == AssignedWord &&
      (e == |s| || !IsWhitespace(s[e]))
  {
    if OccursAt(s, AssignedWord, i) {
      var w := i + |AssignedWord|;
      var j0 := SkipWhitespace(s, w);
      if exists j :: w <= j < |s| && AllWhitespace(s[w..j]) && s[j] == ':' {
        var j :| w <= j < |s| && AllWhitespace(s[w..j]) && s[j] == ':';
        SkipCrosses(s, w, j);
        SkipStops(s, w, j);
      }
    }
  }

  /** The large model's reply is accepted exactly when it lacks the sentinel and the pattern occurs, and the text is the reply minus the leftmost match. */
  lemma LlmVerdictIff(llm: string)
    ensures LlmVerdict(llm).Some? <==>
      !Contains(llm, NotAssigned) && exists i :: 0 <= i <= |llm| && MatchAt(llm, i).Some?
    ensures LlmVerdict(llm).Some? ==>
      exists i, e :: 0 <= i <= |llm| && MatchAt(llm, i) == Some(e) &&
        (forall k :: 0 <= k < i ==> MatchAt(llm, k).None?) &&
        LlmVerdict(llm).value == llm[..i] + llm[e..]
  {
    if !Contains(llm, NotAssigned) {
      match FirstMatch(llm, 0)
      case None =>
      case Some(m) =>
        assert MatchAt(llm, m.0).Some?;
    }
  }

  /** In the canonical reply the pattern matches at the start and ends where `t`'s leading whitespace ends. */
  lemma CanonicalMatch(t: string)
    ensures MatchAt(SlmPrefix + t, 0) == Some(|SlmPrefix| + (|t| - |TrimStart(t)|))
  {
    var s := SlmPrefix + t;
    assert s[..|AssignedWord|] == AssignedWord;
    assert OccursAt(s, AssignedWord, 0);
    assert s[|AssignedWord|] == ' ' && s[|AssignedWord| + 1] == ':';
    assert SkipWhitespace(s, |AssignedWord| + 1) == |AssignedWord| + 1;
    assert SkipWhitespace(s, |AssignedWord|) == |AssignedWord| + 1;
    SkipFromPrefix(t);
  }

  /** The canonical reply "Task assigned : " + t, without the sentinel, yields t from its first non-whitespace character on. */
  lemma LlmCanonicalReply(t: string)
    requires !Contains(SlmPrefix + t, NotAssigned)
    ensures LlmVerdict(SlmPrefix + t) == Some(TrimStart(t))
  {
    var s := SlmPrefix + t;
    var e := |SlmPrefix| + (|t| - |TrimStart(t)|);
    TrimStartIsSuffix(t);
    CanonicalMatch(t);
    VerdictAtStart(s, e);
    RestAfterPrefix(t, |t| - |TrimStart(t)|);
  }

  /** What follows the prefix and the first `n` characters of `t` is the rest of `t`. */
  lemma RestAfterPrefix(t: string, n: nat)
    requires n <= |t|
    ensures (SlmPrefix + t)[|SlmPrefix| + n..] == t[n..]
  {
  }

  /** A reply without the sentinel whose pattern matches at its very start loses exactly that match. */
  lemma VerdictAtStart(s: string, e: nat)
    requires !Contains(s, NotAssigned) && e <= |s| && MatchAt(s, 0) == Some(e)
    ensures LlmVerdict(s) == Some(s[e..])
  {
    assert FirstMatch(s, 0) == Some((0, e));
    assert s[..0] + s[e..] == s[e..];
  }

  lemma {:induction false} TrimStartIsSuffix(t: string)
    ensures |TrimStart(t)| <= |t| && TrimStart(t) == t[|t| - |TrimStart(t)|..]
    ensures TrimStart(t) == [] || !IsWhitespace(TrimStart(t)[0])
    ensures AllWhitespace(t[..|t| - |TrimStart(t)|])
  {
    if t != [] && IsWhitespace(t[0]) {
      TrimStartIsSuffix(t[1..]);
      var n := |t[1..]| - |TrimStart(t[1..])|;
      assert t[..n + 1] == [t[0]] + t[1..][..n];
    }
  }

  lemma SkipFromPrefix(t: string)
    ensures SkipWhitespace(SlmPrefix + t, |SlmPrefix| - 1) == |SlmPrefix| + (|t| - |TrimStart(t)|)
  {
    var s := SlmPrefix + t;
    TrimStartIsSuffix(t);
    var n := |t| - |TrimStart(t)|;
    var e := |SlmPrefix| + n;
    assert s[|SlmPrefix| - 1] == ' ';
    assert AllWhitespace(s[|SlmPrefix| - 1..e]) by {
      assert s[|SlmPrefix| - 1..e] == [' '] + t[..n];
    }
    SkipCrosses(s, |SlmPrefix| - 1, e);
    if e < |s| {
      assert s[e] == TrimStart(t)[0];
    }
    SkipStops(s, |SlmPrefix| - 1, e);
  }

  // ---------------------------------------------------------------------------
  // The streamed reply

  /** The fragments of a stream glued together in order. */
  function Join(parts: seq<string>): string
  {
    if parts == [] then "" else Join(parts[..|parts| - 1]) + parts[|parts| - 1]
  }

  /** Draining a stream in two pieces and gluing the results is draining it whole. */
  lemma {:induction false} JoinAppend(a: seq<string>, b: seq<string>)
    ensures Join(a + b) == Join(a) + Join(b)
    decreases |b|
  {
    if b == [] {
      assert a + b == a;
    } else {
      var b' := b[..|b| - 1];
      assert (a + b)[..|a + b| - 1] == a + b';
      JoinAppend(a, b');
    }
  }

  /** The `for await ... llmTask += part` loop: the full reply is read before it is inspected. */
  method Concatenate(parts: seq<string>) returns (text: string)
    ensures text == Join(parts)
  {
    text := "";
    for i := 0 to |parts|
      invariant text == Join(parts[..i])
    {
      assert parts[..i + 1][..i] == parts[..i];
      text := text + parts[i];
    }
    assert parts[..|parts|] == parts;
  }

  // ---------------------------------------------------------------------------
  // The processed tick

  /** A row the handler asks the task store to insert (always `automatically`, with the prompt as source). */
  datatype Insert =
    | AutoTask(text: string)              // default status, notifies the user
    | FalsePositiveMarker(text: string)   // status `false_positive`, silent

  /** What a processed tick does once the oracles have answered. */
  datatype Plan = Plan(llmInvoked: bool, inserts: seq<Insert>)

  /**
   * The body of a processed tick: small-model verdict, first duplicate test, large model,
   * its verdict, second duplicate test, then the unconditional marker with the small model's text.
   * `secondSearch` is consulted only when the large model's verdict is positive.
   */
  function TickPlan(slm: string, firstSearch: seq<SearchMatch>, llm: string, secondSearch: seq<SearchMatch>): Plan
  {
    match SlmVerdict(slm)
    case None => Plan(false, [])
    case Some(slmText) =>
      if IsDuplicate(firstSearch) then Plan(false, [])
      else
        Plan(true, TickInserts(LlmVerdict(llm), secondSearch, slmText))
  }

  /** The rows inserted once the large model has answered: its task when accepted and new, then the marker. */
  function TickInserts(verdict: Option<string>, secondSearch: seq<SearchMatch>, slmText: string): seq<Insert>
  {
    var confirmed :=
      match verdict
      case Some(t) => if IsDuplicate(secondSearch) then [] else [AutoTask(t)]
      case None => [];
    confirmed + [FalsePositiveMarker(slmText)]
  }

  /** The large model runs only after a positive small-model verdict that is not a duplicate. */
  lemma LlmShortCircuit(slm: string, firstSearch: seq<SearchMatch>, llm: string, secondSearch: seq<SearchMatch>)
    ensures TickPlan(slm, firstSearch, llm, secondSearch).llmInvoked <==>
      StartsWith(slm, SlmPrefix) && !IsDuplicate(firstSearch)
    ensures !TickPlan(slm, firstSearch, llm, secondSearch).llmInvoked ==>
      TickPlan(slm, firstSearch, llm, secondSearch).inserts == []
  {
  }

  /** A task row is inserted exactly when the large model's reply is accepted and is no duplicate, and it carries that reply's text. */
  lemma AutoTaskIff(slm: string, firstSearch: seq<SearchMatch>, llm: string, secondSearch: seq<SearchMatch>, t: string)
    ensures AutoTask(t) in TickPlan(slm, firstSearch, llm, secondSearch).inserts <==>
      TickPlan(slm, firstSearch, llm, secondSearch).llmInvoked &&
      LlmVerdict(llm) == Some(t) && !IsDuplicate(secondSearch)
  {
  }

  /** Once the large model has run, the last insert is always the marker holding the small model's text after its prefix. */
  lemma FalsePositiveAlways(slm: string, firstSearch: seq<SearchMatch>, llm: string, secondSearch: seq<SearchMatch>)
    ensures var p := TickPlan(slm, firstSearch, llm, secondSearch);
      p.llmInvoked ==>
        1 <= |p.inserts| <= 2 && p.inserts[|p.inserts| - 1] == FalsePositiveMarker(slm[|SlmPrefix|..]) &&
        forall k :: 0 <= k < |p.inserts| - 1 ==> p.inserts[k].AutoTask?
  {
    SlmVerdictIsSuffix(slm);
  }

  /**
   * A well-formed accepted tick, end to end: a fast verdict "Task assigned : a",
   * no neighbours, and a streamed reply "Task assigned : " + b (no sentinel, no leading blank)
   * insert b as a task, then the marker for a.
   */
  lemma CanonicalTick(a: string, b: string, parts: seq<string>)
    requires Join(parts) == SlmPrefix + b
    requires !Contains(SlmPrefix + b, NotAssigned)
    requires b == [] || !IsWhitespace(b[0])
    ensures TickPlan(SlmPrefix + a, [], Join(parts), []) == Plan(true, [AutoTask(b), FalsePositiveMarker(a)])
  {
    SlmRoundTrip(a);
    LlmCanonicalReply(b);
  }
}
