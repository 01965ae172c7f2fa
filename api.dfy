/** The decision logic of the Advent of Code client: building page URLs,
    the session cookie, classifying the reply to a submitted answer, picking
    the example input and the example answer out of a puzzle page, reading
    how many parts are solved, and the guard in front of a submission. The
    HTTP requests and the HTML parser are not modelled: a fetched page is
    given as a value of the `Page` datatype below. */
module Api {
  import opened Common

  /** The failures the client raises: `ValueError`, or `TypeError` when the
      level input has no value and `int(None)` is called. */
  datatype ApiError = MissingToken | BadPart | BadLevel | NoLevelInput | BadLevelValue

  // ---------------------------------------------------------------------
  // URLs and the session cookie
  // ---------------------------------------------------------------------

  /** The page of a puzzle day. */
  function DayUrl(year: int, day: int): string {
    "https://adventofcode.com/" + IntToStr(year) + "/day/" + IntToStr(day)
  }

  /** `_aoc_url`: the extra parts joined by "/" follow the day's page after
      one "/"; when they join to nothing the day's page is returned as is. */
  function AocUrl(year: int, day: int, parts: seq<string>): (r: string)
    ensures |DayUrl(year, day)| <= |r| && r[..|DayUrl(year, day)|] == DayUrl(year, day)
    ensures r == DayUrl(year, day) <==> Join(parts, '/') == []
  {
    var path := Join(parts, '/');
    if path != [] then DayUrl(year, day) + "/" + path else DayUrl(year, day)
  }

  /** The URL always starts with the day's page. With no parts it is exactly
      that page, with no trailing "/"; otherwise, when the parts hold no "/"
      themselves and do not join to nothing, the rest after one "/" splits
      back into the parts. */
  lemma AocUrlParts(year: int, day: int, parts: seq<string>)
    ensures var url := AocUrl(year, day, parts); var base := DayUrl(year, day);
      && |base| <= |url| && url[..|base|] == base
      && (parts == [] ==> url == base)
    ensures var url := AocUrl(year, day, parts); var base := DayUrl(year, day);
      parts != [] && Join(parts, '/') != [] && (forall i :: 0 <= i < |parts| ==> '/' !in parts[i]) ==>
        |url| > |base| && url[|base|] == '/' && Split(url[|base| + 1..], '/') == parts
  {
    var base := DayUrl(year, day);
    var path := Join(parts, '/');
    if path != [] {
      assert AocUrl(year, day, parts)[|base| + 1..] == path;
      if parts != [] && forall i :: 0 <= i < |parts| ==> '/' !in parts[i] {
        SplitJoin(parts, '/');
      }
    }
  }

  /** `_session_cookie`: a missing or empty token is an error, otherwise the
      cookie header carries the token as the session. */
  function SessionCookie(token: Option<string>): (r: Result<(string, string), ApiError>)
    ensures r.Ok? <==> token.Some? && token.value != []
    ensures r.Ok? ==> r.value == ("Cookie", "session=" + token.value)
    ensures r.Err? ==> r.error == MissingToken
  {
    if token.None? || token.value == [] then Err(MissingToken)
    else Ok(("Cookie", "session=" + token.value))
  }

  // ---------------------------------------------------------------------
  // The lazy capture `pre(.+?)suf`
  // ---------------------------------------------------------------------

  /** `pat` occurs in `text` at position `i`. */
  predicate StartsAt(text: string, i: nat, pat: string) {
    i + |pat| <= |text| && text[i..i + |pat|] == pat
  }

  /** No newline in `text[a..b]`: what `.` may match. */
  predicate NoNewline(text: string, a: nat, b: nat)
    requires a <= b <= |text|
  {
    forall j :: a <= j < b ==> text[j] != '\n'
  }

  /** The shortest length `m >= n` of a capture starting at `s` that is
      followed by `suf`, trying lengths in increasing order as a lazy `+?`
      does; a newline ends the attempt. */
  function LazyEnd(text: string, s: nat, n: nat, suf: string): (r: Option<nat>)
    requires 1 <= n && s <= |text|
    requires s + n - 1 <= |text| && NoNewline(text, s, s + n - 1)
    ensures r.Some? ==>
      n <= r.value && s + r.value <= |text| && NoNewline(text, s, s + r.value) && StartsAt(text, s + r.value, suf)
    decreases |text| + 1 - (s + n)
  {
    if s + n > |text| then None
    else if text[s + n - 1] == '\n' then None
    else if StartsAt(text, s + n, suf) then Some(n)
    else LazyEnd(text, s, n + 1, suf)
  }

  /** Any acceptable capture length at least `n` is found, and the one found
      is no longer. */
  lemma {:induction false} LazyEndComplete(text: string, s: nat, n: nat, suf: string, m: nat)
    requires 1 <= n <= m && s + m <= |text| && NoNewline(text, s, s + m) && StartsAt(text, s + m, suf)
    requires NoNewline(text, s, s + n - 1)
    ensures LazyEnd(text, s, n, suf).Some? && LazyEnd(text, s, n, suf).value <= m
    decreases m - n
  {
    if !StartsAt(text, s + n, suf) {
      LazyEndComplete(text, s, n + 1, suf, m);
    }
  }

  /** `re.search(pre + "(.+?)" + suf, text)`: the leftmost start, then the
      shortest capture. */
  function SearchFrom(text: string, i: nat, pre: string, suf: string): (r: Option<string>)
    ensures r.Some? ==>
      r.value != [] && '\n' !in r.value && exists k :: i <= k && StartsAt(text, k, pre + r.value + suf)
    decreases |text| + 1 - i
  {
    if i > |text| then None
    else
      var s := i + |pre|;
      var found := if StartsAt(text, i, pre) then LazyEnd(text, s, 1, suf) else None;
      if found.Some? then
        var c := text[s..s + found.value];
        Pieces(text, i, pre, found.value, suf);
        Some(c)
      else SearchFrom(text, i + 1, pre, suf)
  }

  /** `pre`, then `m` characters, then `suf`, starting at `i`: an occurrence
      of their concatenation. */
  lemma Pieces(text: string, i: nat, pre: string, m: nat, suf: string)
    requires StartsAt(text, i, pre) && i + |pre| + m <= |text| && StartsAt(text, i + |pre| + m, suf)
    requires NoNewline(text, i + |pre|, i + |pre| + m)
    ensures var c := text[i + |pre|..i + |pre| + m];
      '\n' !in c && StartsAt(text, i, pre + c + suf)
  {
    var s := i + |pre|;
    var c := text[s..s + m];
    assert text[i..i + |pre + c + suf|] == text[i..s] + text[s..s + m] + text[s + m..s + m + |suf|];
    forall j | 0 <= j < |c| ensures c[j] != '\n' {
      assert c[j] == text[s + j];
    }
  }

  /** The pieces of an occurrence of `pre + c + suf`. */
  lemma Occurrence(text: string, k: nat, pre: string, c: string, suf: string)
    requires StartsAt(text, k, pre + c + suf)
    ensures StartsAt(text, k, pre) && StartsAt(text, k + |pre| + |c|, suf)
    ensures forall j :: k + |pre| <= j < k + |pre| + |c| ==> text[j] == c[j - k - |pre|]
  {
    var w := pre + c + suf;
    assert forall j :: k <= j < k + |w| ==> text[j] == w[j - k];
    assert text[k..k + |pre|] == pre;
    assert text[k + |pre| + |c|..k + |pre| + |c| + |suf|] == suf;
  }

  /** If `pre`, a non-empty capture without newline, and `suf` occur
      together at or after `i`, the search succeeds. */
  lemma {:induction false} SearchComplete(text: string, i: nat, pre: string, suf: string, k: nat, c: string)
    requires i <= k && c != [] && '\n' !in c && StartsAt(text, k, pre + c + suf)
    ensures SearchFrom(text, i, pre, suf).Some?
    decreases k - i
  {
    if i < k {
      if !(StartsAt(text, i, pre) && LazyEnd(text, i + |pre|, 1, suf).Some?) {
        SearchComplete(text, i + 1, pre, suf, k, c);
      }
    } else {
      OccurrenceNoNewline(text, k, pre, c, suf);
      SearchHere(text, k, pre, suf, |c|);
    }
  }

  /** A capture without newlines leaves the text between the two patterns free of them. */
  lemma OccurrenceNoNewline(text: string, k: nat, pre: string, c: string, suf: string)
    requires '\n' !in c && StartsAt(text, k, pre + c + suf)
    ensures StartsAt(text, k, pre) && StartsAt(text, k + |pre| + |c|, suf)
    ensures NoNewline(text, k + |pre|, k + |pre| + |c|)
  {
    var s := k + |pre|;
    Occurrence(text, k, pre, c, suf);
    forall j | s <= j < s + |c| ensures text[j] != '\n' {
      assert text[j] == c[j - s];
    }
  }

  lemma SearchHere(text: string, k: nat, pre: string, suf: string, m: nat)
    requires 1 <= m && k + |pre| + m <= |text|
    requires StartsAt(text, k, pre) && NoNewline(text, k + |pre|, k + |pre| + m)
    requires StartsAt(text, k + |pre| + m, suf)
    ensures SearchFrom(text, k, pre, suf).Some?
  {
    LazyEndFound(text, k + |pre|, suf, m);
    SearchStarts(text, k, pre, suf);
  }

  /** A newline-free stretch followed by the suffix gives the lazy capture an end. */
  lemma LazyEndFound(text: string, s: nat, suf: string, m: nat)
    requires 1 <= m && s + m <= |text| && NoNewline(text, s, s + m) && StartsAt(text, s + m, suf)
    ensures LazyEnd(text, s, 1, suf).Some?
  {
    assert NoNewline(text, s, s);
    LazyEndComplete(text, s, 1, suf, m);
  }

  /** Where the prefix starts and a capture follows it, the search succeeds. */
  lemma SearchStarts(text: string, i: nat, pre: string, suf: string)
    requires StartsAt(text, i, pre) && i + |pre| <= |text| && LazyEnd(text, i + |pre|, 1, suf).Some?
    ensures SearchFrom(text, i, pre, suf).Some?
  {
  }

  /** The capture of `pre(.+?)suf` in `text`: when there is one it is
      non-empty, has no newline and sits between `pre` and `suf` in the
      text; there is one whenever such a piece of text exists. */
  function Capture(text: string, pre: string, suf: string): (r: Option<string>)
    ensures r.Some? ==> r.value != [] && '\n' !in r.value && exists k :: StartsAt(text, k, pre + r.value + suf)
  {
    SearchFrom(text, 0, pre, suf)
  }

  lemma CaptureFound(text: string, pre: string, suf: string, k: nat, c: string)
    requires c != [] && '\n' !in c && StartsAt(text, k, pre + c + suf)
    ensures Capture(text, pre, suf).Some?
  {
    SearchComplete(text, 0, pre, suf, k, c);
  }

  // ---------------------------------------------------------------------
  // Classifying the reply to a submission
  // ---------------------------------------------------------------------

  const TooRecent := "You gave an answer too recently"
  const NotRight := "That's not the right answer"
  const Right := "That's the right answer"
  const WrongLevel := "You don't seem to be solving the right level"

  /** What `_parse_submission_feedback` reports. */
  datatype Feedback = Cooldown(wait: string) | Incorrect(wait: string) | Correct | AlreadySolved | Unexpected(text: string)

  /** A captured waiting time, or "a bit" when there is none. */
  function WaitOr(c: Option<string>): (r: string)
    ensures c.None? ==> r == "a bit"
    ensures c.Some? ==> r == c.value
  {
    if c.Some? then c.value else "a bit"
  }

  /** The phrases are tried in a fixed order and the first that occurs
      decides; text with none of them is unexpected and kept whole. */
  function ParseFeedback(text: string): (r: Feedback)
    ensures r.Cooldown? <==> Contains(text, TooRecent)
    ensures r.Incorrect? <==> !Contains(text, TooRecent) && Contains(text, NotRight)
    ensures r.Correct? <==> !Contains(text, TooRecent) && !Contains(text, NotRight) && Contains(text, Right)
    ensures r.AlreadySolved? <==>
      !Contains(text, TooRecent) && !Contains(text, NotRight) && !Contains(text, Right) && Contains(text, WrongLevel)
    ensures r.Unexpected? ==> r.text == text
  {
    if Contains(text, TooRecent) then Cooldown(WaitOr(Capture(text, "You have ", " left")))
    else if Contains(text, NotRight) then Incorrect(WaitOr(Capture(text, "lease wait ", " before trying again")))
    else if Contains(text, Right) then Correct
    else if Contains(text, WrongLevel) then AlreadySolved
    else Unexpected(text)
  }

  /** The waiting time shown is the captured one, and "a bit" exactly when
      the text holds no capture. */
  lemma CooldownWait(text: string)
    requires Contains(text, TooRecent)
    ensures var c := Capture(text, "You have ", " left");
      ParseFeedback(text).wait == (if c.Some? then c.value else "a bit")
    ensures (exists k: nat, c: string :: c != [] && '\n' !in c && StartsAt(text, k, "You have " + c + " left"))
      ==> Capture(text, "You have ", " left").Some?
  {
    if exists k: nat, c: string :: c != [] && '\n' !in c && StartsAt(text, k, "You have " + c + " left") {
      var k: nat, c: string :| c != [] && '\n' !in c && StartsAt(text, k, "You have " + c + " left");
      CaptureFound(text, "You have ", " left", k, c);
    }
  }

  /** The message printed for each kind of reply. */
  function Message(f: Feedback): (r: string)
    ensures f.Cooldown? || f.Incorrect? ==> |f.wait| + 1 < |r| && r[|r| - |f.wait| - 1..|r| - 1] == f.wait
    ensures f.Unexpected? ==> |f.text| < |r| && r[|r| - |f.text|..] == f.text
  {
    match f
    case Cooldown(w) => "Cooldown active. Wait " + w + "."
    case Incorrect(w) => "Incorrect answer. Wait " + w + "."
    case Correct => "Correct answer!"
    case AlreadySolved => "This part was already solved."
    case Unexpected(t) => "Unexpected submission response:\n" + t
  }

  /** Different replies print different messages, so the message tells
      what kind of reply came and its waiting time or text. */
  lemma MessageInjective(f: Feedback, g: Feedback)
    requires Message(f) == Message(g)
    ensures f == g
  {
    var m := Message(f);
    assert m[0] == Message(g)[0];
    if f.Cooldown? || f.Correct? {
      assert m[2] == Message(g)[2];
    }
    if f.Cooldown? && g.Cooldown? {
      assert f.wait == m[22..|m| - 1] == g.wait;
    } else if f.Incorrect? && g.Incorrect? {
      assert f.wait == m[23..|m| - 1] == g.wait;
    } else if f.Unexpected? && g.Unexpected? {
      assert f.text == m[32..] == g.text;
    }
  }

  // ---------------------------------------------------------------------
  // The document
  // ---------------------------------------------------------------------

  /** The first descendant of the other kind inside a `code` or `em` tag:
      absent, or present with its `.string` (none when it does not hold a
      single string). */
  datatype Inner = Absent | Present(str: Option<string>)

  /** An inner tag whose string is there and not empty: what the scans
      accept. */
  predicate Answered(x: Inner) {
    x.Present? && x.str.Some? && x.str.value != []
  }

  /** A `code` tag: its text and its first `em`. */
  datatype CodeTag = CodeTag(text: string, em: Inner)

  /** An `article`: its `code` tags and, for each of its `em` tags, the first
      `code` inside it, in document order. */
  datatype Article = Article(codes: seq<CodeTag>, ems: seq<Inner>)

  /** The `level` input of the answer form and its `value` attribute. */
  datatype Form = Form(level: Option<Option<string>>)

  /** A puzzle page: its articles and the form whose action is the day's
      answer URL. */
  datatype Page = Page(articles: seq<Article>, answerForm: Option<Form>)

  // ---------------------------------------------------------------------
  // get_test_data
  // ---------------------------------------------------------------------

  /** `max(code_blocks, key=len)`: the first of the longest texts. */
  function FirstLongest(codes: seq<CodeTag>): (k: nat)
    requires codes != []
    ensures k < |codes|
    ensures forall j :: 0 <= j < |codes| ==> |codes[j].text| <= |codes[k].text|
    ensures forall j :: 0 <= j < k ==> |codes[j].text| < |codes[k].text|
  {
    if |codes| == 1 then 0
    else
      var init := codes[..|codes| - 1];
      var k := FirstLongest(init);
      assert forall j :: 0 <= j < |init| ==> init[j] == codes[j];
      if |codes[|codes| - 1].text| > |codes[k].text| then |codes| - 1 else k
  }

  /** `get_test_data`: nothing without an article or without a code block in
      the first article; otherwise the stripped text of the first longest
      code block. */
  function GetTestData(page: Page): (r: string)
    ensures page.articles == [] || page.articles[0].codes == [] ==> r == ""
    ensures page.articles != [] && page.articles[0].codes != [] ==>
      var codes := page.articles[0].codes;
      exists k :: 0 <= k < |codes| && r == Strip(codes[k].text)
        && (forall j :: 0 <= j < |codes| ==> |codes[j].text| <= |codes[k].text|)
        && (forall j :: 0 <= j < k ==> |codes[j].text| < |codes[k].text|)
  {
    if page.articles == [] then ""
    else
      var codes := page.articles[0].codes;
      if codes == [] then "" else Strip(codes[FirstLongest(codes)].text)
  }

  // ---------------------------------------------------------------------
  // _extract_test_solution and get_test_solution
  // ---------------------------------------------------------------------

  /** Entry `k` is the last one the scan accepts. */
  predicate LastAnswered(xs: seq<Inner>, k: int) {
    0 <= k < |xs| && Answered(xs[k]) && forall j :: k < j < |xs| ==> !Answered(xs[j])
  }

  /** The string of the last accepted entry, scanning from the end. */
  function LastString(xs: seq<Inner>): (r: Option<string>)
    ensures r.None? <==> forall j :: 0 <= j < |xs| ==> !Answered(xs[j])
    ensures r.Some? ==> exists k :: LastAnswered(xs, k) && r.value == xs[k].str.value
  {
    if xs == [] then None
    else if Answered(xs[|xs| - 1]) then
      assert LastAnswered(xs, |xs| - 1);
      Some(xs[|xs| - 1].str.value)
    else
      var init := xs[..|xs| - 1];
      assert forall j :: 0 <= j < |init| ==> init[j] == xs[j];
      var r := LastString(init);
      if r.Some? then
        var k :| LastAnswered(init, k) && r.value == init[k].str.value;
        assert LastAnswered(xs, k);
        r
      else r
  }

  /** There is only one last accepted entry. */
  lemma LastAnsweredUnique(xs: seq<Inner>, k: int)
    requires LastAnswered(xs, k)
    ensures LastString(xs) == Some(xs[k].str.value)
  {
    var r := LastString(xs);
    assert Answered(xs[k]);
    assert r.Some?;
    var m :| LastAnswered(xs, m) && r.value == xs[m].str.value;
    assert m == k;
  }

  /** The `em` inside each code tag. */
  function CodeEms(codes: seq<CodeTag>): (r: seq<Inner>)
    ensures |r| == |codes| && forall k :: 0 <= k < |codes| ==> r[k] == codes[k].em
  {
    seq(|codes|, k requires 0 <= k < |codes| => codes[k].em)
  }

  /** What `_extract_test_solution` finds: the last `<code><em>` string, and
      only when there is none the last `<em><code>` string, stripped. */
  function Extracted(a: Article): Option<string> {
    match LastString(CodeEms(a.codes))
    case Some(s) => Some(Strip(s))
    case None =>
      match LastString(a.ems)
      case Some(s) => Some(Strip(s))
      case None => None
  }

  /** `_extract_test_solution`: two scans from the last tag backwards, each
      returning at the first tag whose inner string is there. */
  method ExtractTestSolution(a: Article) returns (r: Option<string>)
    ensures r == Extracted(a)
  {
    var codes := CodeEms(a.codes);
    var i := |codes|;
    while i > 0
      invariant 0 <= i <= |codes|
      invariant forall j :: i <= j < |codes| ==> !Answered(codes[j])
    {
      i := i - 1;
      var em := a.codes[i].em;
      if em.Present? && em.str.Some? && em.str.value != [] {
        assert LastAnswered(codes, i);
        LastAnsweredUnique(codes, i);
        return Some(Strip(em.str.value));
      }
    }
    var ems := a.ems;
    i := |ems|;
    while i > 0
      invariant 0 <= i <= |ems|
      invariant forall j :: i <= j < |ems| ==> !Answered(ems[j])
    {
      i := i - 1;
      var code := ems[i];
      if code.Present? && code.str.Some? && code.str.value != [] {
        assert LastAnswered(ems, i);
        LastAnsweredUnique(ems, i);
        return Some(Strip(code.str.value));
      }
    }
    return None;
  }

  /** The answer from a scan is what some accepted tag holds, stripped; the
      `em` fallback is used only when no code tag holds an answer. */
  lemma ExtractedMeaning(a: Article)
    ensures Extracted(a).None? <==>
      (forall k :: 0 <= k < |a.codes| ==> !Answered(a.codes[k].em)) && (forall k :: 0 <= k < |a.ems| ==> !Answered(a.ems[k]))
    ensures (exists k :: 0 <= k < |a.codes| && Answered(a.codes[k].em)) ==>
      exists k :: LastAnswered(CodeEms(a.codes), k) && Extracted(a) == Some(Strip(a.codes[k].em.str.value))
    ensures (forall k :: 0 <= k < |a.codes| ==> !Answered(a.codes[k].em)) && (exists k :: 0 <= k < |a.ems| && Answered(a.ems[k])) ==>
      exists k :: LastAnswered(a.ems, k) && Extracted(a) == Some(Strip(a.ems[k].str.value))
  {
    var cs := CodeEms(a.codes);
    assert (forall k :: 0 <= k < |a.codes| ==> !Answered(a.codes[k].em)) <==> (forall k :: 0 <= k < |cs| ==> !Answered(cs[k]));
  }

  /** `get_test_solution`: a part other than 1 or 2 is an error; no article
      for the part, or no answer (or an empty one) in it, gives nothing;
      otherwise the answer found in the part's article. */
  function GetTestSolution(page: Page, part: int): (r: Result<string, ApiError>)
    ensures r.Err? <==> part != 1 && part != 2
    ensures r.Err? ==> r.error == BadPart
    ensures (part == 1 || part == 2) && part > |page.articles| ==> r == Ok("")
    ensures (part == 1 || part == 2) && part <= |page.articles| ==>
      var e := Extracted(page.articles[part - 1]);
      r == Ok(if e.Some? then e.value else "")
  {
    if part != 1 && part != 2 then Err(BadPart)
    else if part > |page.articles| then Ok("")
    else
      match Extracted(page.articles[part - 1])
      case None => Ok("")
      case Some(s) => if s == [] then Ok("") else Ok(s)
  }

  // ---------------------------------------------------------------------
  // number_of_parts_solved and submit_solution
  // ---------------------------------------------------------------------

  /** `number_of_parts_solved`: without an answer form both parts are
      solved; a form without a `level` input is an error, and so is a value
      `int` rejects; otherwise one less than the level the form submits. */
  function NumberOfPartsSolved(page: Page): (r: Result<int, ApiError>)
    ensures page.answerForm.None? ==> r == Ok(2)
    ensures page.answerForm.Some? && page.answerForm.value.level.None? ==> r == Err(NoLevelInput)
    ensures page.answerForm.Some? && page.answerForm.value.level.Some? ==>
      var v := page.answerForm.value.level.value;
      if v.Some? && ParseInt(v.value).Some? then r == Ok(ParseInt(v.value).value - 1) else r == Err(BadLevelValue)
  {
    match page.answerForm
    case None => Ok(2)
    case Some(form) =>
      match form.level
      case None => Err(NoLevelInput)
      case Some(value) =>
        if value.None? then Err(BadLevelValue)
        else
          match ParseInt(value.value)
          case None => Err(BadLevelValue)
          case Some(level) => Ok(level - 1)
  }

  /** The form of a page that asks for level `n` reports `n - 1` solved. */
  lemma FormLevel(n: nat)
    ensures NumberOfPartsSolved(Page([], Some(Form(Some(Some(NatToStr(n))))))) == Ok(n - 1)
  {
    ParseIntToStr(n);
  }

  /** What a call to `submit_solution` does. A post carries the form data,
      the level and the answer as the text the form sends. */
  datatype SubmitOutcome =
    | AlreadySubmitted
    | Posted(url: string, level: int, answer: string, reply: Option<Feedback>)

  /** `submit_solution`: the level must be 1 or 2; the page read to count the
      solved parts needs the session cookie; an already solved part is not
      posted; otherwise the answer is posted to the day's answer URL and the
      reply page's first article, when there is one, is classified. */
  function SubmitSolution(token: Option<string>, year: int, day: int, level: int, answer: string, page: Page, reply: Option<string>): (r: Result<SubmitOutcome, ApiError>)
    ensures level != 1 && level != 2 ==> r == Err(BadLevel)
    ensures r.Ok? && r.value.Posted? ==> r.value.url == AocUrl(year, day, ["answer"]) && r.value.level == level && r.value.answer == answer
  {
    if level != 1 && level != 2 then Err(BadLevel)
    else
      match SessionCookie(token)
      case Err(e) => Err(e)
      case Ok(_) =>
        match NumberOfPartsSolved(page)
        case Err(e) => Err(e)
        case Ok(solved) =>
          if solved >= level then Ok(AlreadySubmitted)
          else Ok(Posted(AocUrl(year, day, ["answer"]), level, answer, if reply.Some? then Some(ParseFeedback(reply.value)) else None))
  }

  /** An answer is posted exactly when the level is 1 or 2, the token is
      set, the page tells how many parts are solved, and that is fewer than
      the level; a part already solved is never posted again. */
  lemma SubmitGuard(token: Option<string>, year: int, day: int, level: int, answer: string, page: Page, reply: Option<string>)
    ensures var r := SubmitSolution(token, year, day, level, answer, page, reply);
      r.Ok? && r.value.Posted? <==>
        (level == 1 || level == 2) && token.Some? && token.value != [] && NumberOfPartsSolved(page).Ok?
          && NumberOfPartsSolved(page).value < level
    ensures NumberOfPartsSolved(page).Ok? && NumberOfPartsSolved(page).value >= 2 ==>
      !(SubmitSolution(token, year, day, level, answer, page, reply).Ok? && SubmitSolution(token, year, day, level, answer, page, reply).value.Posted?)
  {
  }
}
