/**
 * The administrator's server actions: create a challenge from the submitted form, delete a
 * challenge with the rows that refer to it, force-stop a lease, and reset the scoreboard.
 * Every one of them answers "Unauthorized" and changes nothing unless the caller is an admin.
 */
module AdminActions {
  import opened Base
  import opened Store
  import opened JsText

  const Unauthorized := "Unauthorized"
  const MissingRequiredFields := "Missing required fields"
  const ChallengeDeployed := "Challenge deployed successfully"
  const NoIdProvided := "No ID provided"
  const ChallengeDecommissioned := "Challenge decommissioned"
  const DeleteFailed := "Failed to delete challenge"
  const NoContainerIdProvided := "No Container ID provided"
  const ContainerTerminated := "Container terminated"
  const ScoresReset := "Scores reset successfully"

  /** Hint or resource text is one entry per line. */
  const Newline := '\n'
  /** A resource line is its title and its URL separated by this character. */
  const FieldSeparator := '|'
  const DefaultResourceTitle := "Resource"
  const DefaultResourceUrl := "#"

  predicate IsAdmin(session: Option<Session>) {
    session.Some? && session.value.role == "admin"
  }

  /** The creation form as submitted; a field that is absent reads as "". */
  datatype ChallengeForm = ChallengeForm(
    title: string, description: string, category: string, points: string, flag: string,
    imageName: string, internalPort: string, hints: string, resources: string)

  // ------------------------------------------------------------- hints

  /** The hint one line gives: the line trimmed, or none when it is blank. */
  function HintOf(line: string): (hint: seq<string>)
    ensures |hint| <= 1
    ensures |hint| == 1 <==> !AllSpace(line)
    ensures |hint| == 1 ==> hint[0] != "" && IsTrimmed(hint[0])
  {
    var h := Trim(line);
    if h == "" then [] else [h]
  }

  /** The hints of a list of lines: each non-blank line, trimmed, in order. */
  function HintLines(lines: seq<string>): (hints: seq<string>)
    ensures |hints| <= |lines|
    ensures forall k | 0 <= k < |hints| :: hints[k] != "" && IsTrimmed(hints[k])
  {
    if lines == [] then []
    else
      var first, rest := HintOf(lines[0]), HintLines(lines[1..]);
      TrimmedConcat(first, rest);
      first + rest
  }

  lemma TrimmedConcat(a: seq<string>, b: seq<string>)
    requires forall k | 0 <= k < |a| :: a[k] != "" && IsTrimmed(a[k])
    requires forall k | 0 <= k < |b| :: b[k] != "" && IsTrimmed(b[k])
    ensures forall k | 0 <= k < |a + b| :: (a + b)[k] != "" && IsTrimmed((a + b)[k])
  {
    forall k | 0 <= k < |a + b| ensures (a + b)[k] != "" && IsTrimmed((a + b)[k]) {
      if k < |a| {
        assert (a + b)[k] == a[k];
      } else {
        assert (a + b)[k] == b[k - |a|];
      }
    }
  }

  /** The hints of the hint text: one per newline-separated line. */
  function Hints(text: string): seq<string> {
    HintLines(Split(text, Newline))
  }

  /** Filtering the lines commutes with putting lists of lines together: input order is kept. */
  lemma {:induction false} HintLinesAppend(a: seq<string>, b: seq<string>)
    ensures HintLines(a + b) == HintLines(a) + HintLines(b)
  {
    if a != [] {
      assert (a + b)[0] == a[0] && (a + b)[1..] == a[1..] + b;
      HintLinesAppend(a[1..], b);
      assert HintLines(a + b) == HintOf(a[0]) + HintLines(a[1..] + b);
      assert HintLines(a) == HintOf(a[0]) + HintLines(a[1..]);
    } else {
      assert a + b == b;
    }
  }

  /** A blank line contributes no hint, wherever it stands. */
  lemma BlankLineDropped(a: seq<string>, blank: string, b: seq<string>)
    requires AllSpace(blank)
    ensures HintLines(a + [blank] + b) == HintLines(a) + HintLines(b)
  {
    assert HintLines([blank]) == [] by {
      assert [blank][1..] == [];
      assert HintOf(blank) == [];
    }
    HintLinesAppend(a, [blank]);
    assert HintLines(a + [blank]) == HintLines(a);
    HintLinesAppend(a + [blank], b);
  }

  /** A line with white space around the hint contributes the hint alone. */
  lemma PaddedHint(lead: string, hint: string, tail: string)
    requires AllSpace(lead) && AllSpace(tail) && IsTrimmed(hint) && hint != ""
    ensures HintLines([lead + hint + tail]) == [hint]
  {
    TrimPadded(lead, hint, tail);
  }

  /** Lines that are already hints are kept as they are. */
  lemma {:induction false} HintLinesOfHints(hints: seq<string>)
    requires forall k | 0 <= k < |hints| :: hints[k] != "" && IsTrimmed(hints[k])
    ensures HintLines(hints) == hints
  {
    if hints != [] {
      HintOfHint(hints[0]);
      HintLinesOfHints(hints[1..]);
      HeadTail(hints);
    }
  }

  /** A line that is already a hint gives itself. */
  lemma HintOfHint(hint: string)
    requires hint != "" && IsTrimmed(hint)
    ensures HintOf(hint) == [hint]
  {
    TrimPadded([], hint, []);
    assert [] + hint + [] == hint;
  }

  /** Writing hints one per line and parsing the text gives the same hints back. */
  lemma HintsRoundTrip(hints: seq<string>)
    requires |hints| > 0
    requires forall k | 0 <= k < |hints| :: hints[k] != "" && IsTrimmed(hints[k]) && Newline !in hints[k]
    ensures Hints(Join(hints, Newline)) == hints
  {
    SplitJoin(hints, Newline);
    HintLinesOfHints(hints);
  }

  // ------------------------------------------------------------- resources

  /**
   * One resource line: the first `|`-separated field, trimmed, is the title ("Resource" when
   * blank); the second, trimmed, is the URL ("#" when blank or missing); further fields are ignored.
   */
  function ResourceOf(line: string): (r: Resource)
    ensures r.title != "" && r.url != ""
    ensures r.title == DefaultResourceTitle || (IsTrimmed(r.title) && FieldSeparator !in r.title)
    ensures r.url == DefaultResourceUrl || (IsTrimmed(r.url) && FieldSeparator !in r.url)
  {
    var fields := Split(line, FieldSeparator);
    var title := Trim(fields[0]);
    var url := if |fields| > 1 then Trim(fields[1]) else "";
    Resource(if title == "" then DefaultResourceTitle else title, if url == "" then DefaultResourceUrl else url)
  }

  /** The resource one line gives, or none when it is blank. */
  function ResourceEntry(line: string): (entry: seq<Resource>)
    ensures |entry| <= 1
    ensures |entry| == 1 <==> !AllSpace(line)
    ensures |entry| == 1 ==> entry[0] == ResourceOf(line)
  {
    if Trim(line) == "" then [] else [ResourceOf(line)]
  }

  /** The resources of a list of lines: one per non-blank line, in order. */
  function ResourceLines(lines: seq<string>): (resources: seq<Resource>)
    ensures |resources| <= |lines|
  {
    if lines == [] then [] else ResourceEntry(lines[0]) + ResourceLines(lines[1..])
  }

  /** The resources of the resource text: one per newline-separated line. */
  function Resources(text: string): seq<Resource> {
    ResourceLines(Split(text, Newline))
  }

  /** A line whose first two fields are a title and a URL, both trimmed and non-empty, gives that resource. */
  lemma ResourceOfFields(line: string, title: string, url: string)
    requires |Split(line, FieldSeparator)| >= 2
    requires Split(line, FieldSeparator)[0] == title && Split(line, FieldSeparator)[1] == url
    requires IsTrimmed(title) && IsTrimmed(url) && title != "" && url != ""
    ensures ResourceOf(line) == Resource(title, url)
  {
    TrimTrimmed(title);
    TrimTrimmed(url);
  }

  /** `title|url` gives back the title and the URL. */
  lemma ResourceFields(title: string, url: string)
    requires IsTrimmed(title) && IsTrimmed(url) && title != "" && url != ""
    requires FieldSeparator !in title && FieldSeparator !in url
    ensures ResourceOf(title + [FieldSeparator] + url) == Resource(title, url)
  {
    SplitCons(title, FieldSeparator, url);
    SplitOfPiece(url, FieldSeparator);
    ResourceOfFields(title + [FieldSeparator] + url, title, url);
  }

  /** `title|url|extra` gives back the title and the URL: the fields after the second are dropped. */
  lemma ExtraFieldsDropped(title: string, url: string, extra: string)
    requires IsTrimmed(title) && IsTrimmed(url) && title != "" && url != ""
    requires FieldSeparator !in title && FieldSeparator !in url
    ensures ResourceOf(title + [FieldSeparator] + url + [FieldSeparator] + extra) == Resource(title, url)
  {
    var line := title + [FieldSeparator] + url + [FieldSeparator] + extra;
    assert line == title + [FieldSeparator] + (url + [FieldSeparator] + extra);
    SplitCons(title, FieldSeparator, url + [FieldSeparator] + extra);
    SplitCons(url, FieldSeparator, extra);
    ResourceOfFields(line, title, url);
  }

  /**
   * Any line with a separator: the field before the first separator, trimmed, is the title and the
   * field after it, trimmed, is the URL, each replaced by its default when blank, whatever padding
   * they carry and whatever follows a second separator.
   */
  lemma PaddedFields(title: string, url: string, rest: string)
    requires FieldSeparator !in title && FieldSeparator !in url
    requires rest == [] || rest[0] == FieldSeparator
    ensures ResourceOf(title + [FieldSeparator] + url + rest) ==
      Resource(if Trim(title) == "" then DefaultResourceTitle else Trim(title),
               if Trim(url) == "" then DefaultResourceUrl else Trim(url))
  {
    LineFields(title, url, rest);
  }

  /** The first two fields of such a line are the pieces around its first separator. */
  lemma LineFields(title: string, url: string, rest: string)
    requires FieldSeparator !in title && FieldSeparator !in url
    requires rest == [] || rest[0] == FieldSeparator
    ensures var fields := Split(title + [FieldSeparator] + url + rest, FieldSeparator);
      |fields| >= 2 && fields[0] == title && fields[1] == url
  {
    if rest == [] {
      assert title + [FieldSeparator] + url + rest == title + [FieldSeparator] + url;
      TwoFields(title, url);
    } else {
      assert title + [FieldSeparator] + url + rest == title + [FieldSeparator] + url + [FieldSeparator] + rest[1..];
      MoreFields(title, url, rest[1..]);
    }
  }

  lemma TwoFields(title: string, url: string)
    requires FieldSeparator !in title && FieldSeparator !in url
    ensures Split(title + [FieldSeparator] + url, FieldSeparator) == [title, url]
  {
    SplitCons(title, FieldSeparator, url);
    SplitOfPiece(url, FieldSeparator);
  }

  lemma MoreFields(title: string, url: string, extra: string)
    requires FieldSeparator !in title && FieldSeparator !in url
    ensures Split(title + [FieldSeparator] + url + [FieldSeparator] + extra, FieldSeparator)
      == [title, url] + Split(extra, FieldSeparator)
  {
    assert title + [FieldSeparator] + url + [FieldSeparator] + extra == title + [FieldSeparator] + (url + [FieldSeparator] + extra);
    SplitCons(title, FieldSeparator, url + [FieldSeparator] + extra);
    SplitCons(url, FieldSeparator, extra);
  }

  /** Blanks around either field are dropped: " T | U " gives title "T" and URL "U". */
  lemma PaddedLine(title: string, url: string, pad: string)
    requires IsTrimmed(title) && IsTrimmed(url) && title != "" && url != ""
    requires FieldSeparator !in title && FieldSeparator !in url
    requires AllSpace(pad) && FieldSeparator !in pad
    ensures ResourceOf((pad + title + pad) + [FieldSeparator] + (pad + url + pad)) == Resource(title, url)
  {
    var t, u := pad + title + pad, pad + url + pad;
    NoSeparatorConcat(pad, title, pad);
    NoSeparatorConcat(pad, url, pad);
    TrimPadded(pad, title, pad);
    TrimPadded(pad, url, pad);
    PaddedFields(t, u, []);
    assert t + [FieldSeparator] + u + [] == t + [FieldSeparator] + u;
  }

  lemma NoSeparatorConcat(a: string, b: string, c: string)
    requires FieldSeparator !in a && FieldSeparator !in b && FieldSeparator !in c
    ensures FieldSeparator !in a + b + c
  {
  }

  /** A blank title takes the default: "|u" gives title "Resource" and URL "u". */
  lemma BlankTitle(blank: string, url: string)
    requires AllSpace(blank) && FieldSeparator !in blank
    requires IsTrimmed(url) && url != "" && FieldSeparator !in url
    ensures ResourceOf(blank + [FieldSeparator] + url) == Resource(DefaultResourceTitle, url)
  {
    TrimTrimmed(url);
    PaddedFields(blank, url, []);
    assert blank + [FieldSeparator] + url + [] == blank + [FieldSeparator] + url;
  }

  /** A blank URL takes the default: "t|" gives title "t" and URL "#". */
  lemma BlankUrl(title: string, blank: string)
    requires IsTrimmed(title) && title != "" && FieldSeparator !in title
    requires AllSpace(blank) && FieldSeparator !in blank
    ensures ResourceOf(title + [FieldSeparator] + blank) == Resource(title, DefaultResourceUrl)
  {
    TrimTrimmed(title);
    PaddedFields(title, blank, []);
    assert title + [FieldSeparator] + blank + [] == title + [FieldSeparator] + blank;
  }

  /** The resources of two blocks of lines are those of the first block, then those of the second. */
  lemma {:induction false} ResourceLinesAppend(a: seq<string>, b: seq<string>)
    ensures ResourceLines(a + b) == ResourceLines(a) + ResourceLines(b)
  {
    if a != [] {
      assert (a + b)[0] == a[0] && (a + b)[1..] == a[1..] + b;
      ResourceLinesAppend(a[1..], b);
      assert ResourceLines(a + b) == ResourceEntry(a[0]) + ResourceLines(a[1..] + b);
      assert ResourceLines(a) == ResourceEntry(a[0]) + ResourceLines(a[1..]);
    } else {
      assert a + b == b;
    }
  }

  /** A blank line among others gives nothing; the others keep their order. */
  lemma BlankResourceLineDropped(a: seq<string>, blank: string, b: seq<string>)
    requires AllSpace(blank)
    ensures ResourceLines(a + [blank] + b) == ResourceLines(a + b)
  {
    assert ResourceLines([blank]) == [] by {
      assert [blank][1..] == [];
    }
    ResourceLinesAppend(a, [blank]);
    ResourceLinesAppend(a + [blank], b);
    ResourceLinesAppend(a, b);
  }

  /** A non-blank line among others gives its resource, between those of the lines around it. */
  lemma ResourceLineKept(a: seq<string>, line: string, b: seq<string>)
    requires !AllSpace(line)
    ensures ResourceLines(a + [line] + b) == ResourceLines(a) + [ResourceOf(line)] + ResourceLines(b)
  {
    assert ResourceLines([line]) == [ResourceOf(line)] by {
      assert [line][1..] == [];
    }
    ResourceLinesAppend(a, [line]);
    ResourceLinesAppend(a + [line], b);
  }

  /** A line without a separator names no URL, so the URL defaults to "#". */
  lemma ResourceWithoutUrl(line: string)
    requires FieldSeparator !in line
    ensures ResourceOf(line).url == DefaultResourceUrl
    ensures ResourceOf(line).title == if Trim(line) == "" then DefaultResourceTitle else Trim(line)
  {
    SplitOfPiece(line, FieldSeparator);
  }

  /** A line that holds no separator splits into itself. */
  lemma SplitOfPiece(piece: string, sep: char)
    requires sep !in piece
    ensures Split(piece, sep) == [piece]
  {
    SplitJoin([piece], sep);
  }

  /** A resource that a `title|url` line can carry: both parts trimmed, non-empty and free of separators. */
  predicate Writable(r: Resource) {
    && IsTrimmed(r.title) && IsTrimmed(r.url) && r.title != "" && r.url != ""
    && FieldSeparator !in r.title && FieldSeparator !in r.url && Newline !in r.title && Newline !in r.url
  }

  /** The lines that write resources back: each one's title and URL around the separator. */
  function LinesOf(resources: seq<Resource>): (lines: seq<string>)
    ensures |lines| == |resources|
    ensures forall k | 0 <= k < |lines| :: lines[k] == resources[k].title + [FieldSeparator] + resources[k].url
  {
    if resources == [] then []
    else [resources[0].title + [FieldSeparator] + resources[0].url] + LinesOf(resources[1..])
  }

  /** The line that writes a resource gives back that resource. */
  lemma WrittenLineEntry(r: Resource)
    requires Writable(r)
    ensures ResourceEntry(r.title + [FieldSeparator] + r.url) == [r]
  {
    var line := r.title + [FieldSeparator] + r.url;
    ResourceFields(r.title, r.url);
    assert line[0] == r.title[0];
  }

  /** The line that writes a resource holds no line break. */
  lemma WrittenLineSingle(title: string, url: string)
    requires Newline !in title && Newline !in url
    ensures Newline !in title + [FieldSeparator] + url
  {
    var line := title + [FieldSeparator] + url;
    forall i | 0 <= i < |line| ensures line[i] != Newline {
      if i < |title| {
        assert line[i] == title[i];
      } else if i > |title| {
        assert line[i] == url[i - |title| - 1];
      }
    }
  }

  /** The line that writes a resource is a single line that gives back that resource. */
  lemma WrittenLine(r: Resource, line: string)
    requires Writable(r) && line == r.title + [FieldSeparator] + r.url
    ensures Newline !in line && ResourceEntry(line) == [r]
  {
    WrittenLineEntry(r);
    WrittenLineSingle(r.title, r.url);
  }

  /** Lines that each give one resource give those resources, in order. */
  lemma {:induction false} EntriesGiveResources(lines: seq<string>, resources: seq<Resource>)
    requires |lines| == |resources|
    requires forall k | 0 <= k < |lines| :: ResourceEntry(lines[k]) == [resources[k]]
    ensures ResourceLines(lines) == resources
  {
    if lines != [] {
      EntriesGiveResources(lines[1..], resources[1..]);
      HeadTail(resources);
    }
  }

  /** Writing resources one `title|url` line each and parsing the text gives the same resources back. */
  lemma ResourcesRoundTrip(resources: seq<Resource>)
    requires |resources| > 0
    requires forall k | 0 <= k < |resources| :: Writable(resources[k])
    ensures Resources(Join(LinesOf(resources), Newline)) == resources
  {
    var lines := LinesOf(resources);
    WrittenLines(resources);
    SplitJoin(lines, Newline);
    EntriesGiveResources(lines, resources);
  }

  /** Each written line is a single line that gives back its resource. */
  lemma WrittenLines(resources: seq<Resource>)
    requires forall k | 0 <= k < |resources| :: Writable(resources[k])
    ensures forall k | 0 <= k < |resources| :: Newline !in LinesOf(resources)[k] && ResourceEntry(LinesOf(resources)[k]) == [resources[k]]
  {
    var lines := LinesOf(resources);
    forall k | 0 <= k < |lines| ensures Newline !in lines[k] && ResourceEntry(lines[k]) == [resources[k]] {
      WrittenLine(resources[k], lines[k]);
    }
  }

  // ------------------------------------------------------------- the form

  /**
   * The challenge the form describes, or "Missing required fields" when the title, description,
   * category or flag is empty, or when the points do not parse to a non-zero integer.
   */
  function ChallengeFromForm(form: ChallengeForm, id: Id): (r: Reply<Challenge>)
    ensures r.Err? <==>
      form.title == "" || form.description == "" || form.category == "" || form.flag == ""
      || ParseInt(form.points).None? || ParseInt(form.points) == Some(0)
    ensures r.Err? ==> r.message == MissingRequiredFields
    ensures r.Ok? ==>
      var c := r.value;
      && c.id == id && c.title == form.title && c.description == form.description
      && c.category == form.category && c.flag == form.flag
      && Some(c.points) == ParseInt(form.points) && c.points != 0
      && (c.imageName.None? <==> form.imageName == "") && (c.imageName.Some? ==> c.imageName.value == form.imageName)
      && (form.internalPort == "" ==> c.internalPort.None?)
      && (form.internalPort != "" ==> c.internalPort == ParseInt(form.internalPort))
      && c.hints == Hints(form.hints) && c.resources == Resources(form.resources)
  {
    var points := ParseInt(form.points);
    if form.title == "" || form.description == "" || form.category == "" || points.None? || points.value == 0 || form.flag == ""
    then Err(MissingRequiredFields)
    else Ok(Challenge(
      id, form.title, form.description, form.category, points.value, form.flag,
      if form.imageName == "" then None else Some(form.imageName),
      if form.internalPort == "" then None else ParseInt(form.internalPort),
      Hints(form.hints), Resources(form.resources)))
  }

  /** A negative number of points is accepted as written, and so are leading blanks and trailing text. */
  lemma NegativePointsAccepted(form: ChallengeForm, id: Id, lead: string, points: int, rest: string)
    requires form.title != "" && form.description != "" && form.category != "" && form.flag != ""
    requires AllSpace(lead) && points < 0
    requires rest == [] || (DigitValue(rest[0], 10) < 0 && rest[0] != 'x' && rest[0] != 'X')
    requires form.points == lead + Numeral(points) + rest
    ensures ChallengeFromForm(form, id).Ok? && ChallengeFromForm(form, id).value.points == points
  {
    ParseIntNumeral(lead, points, rest);
  }

  /** Zero points is refused as a missing field. */
  lemma ZeroPointsRefused(form: ChallengeForm, id: Id)
    requires form.points == Numeral(0)
    ensures ChallengeFromForm(form, id) == Err(MissingRequiredFields)
  {
    ParseIntNumeral([], 0, []);
    assert [] + Numeral(0) + [] == Numeral(0);
  }

  /**
   * createChallenge. A valid form adds one challenge under a fresh identity and nothing else;
   * anything else changes nothing.
   */
  method CreateChallenge(p: Platform, session: Option<Session>, form: ChallengeForm) returns (r: Reply<string>)
    requires p.Valid()
    modifies p`challenges, p`nextId
    ensures p.Valid()
    ensures old(LedgerMatches(p.teams, p.challenges, p.submissions)) ==> LedgerMatches(p.teams, p.challenges, p.submissions)
    ensures !IsAdmin(session) ==> r == Err(Unauthorized) && p.challenges == old(p.challenges) && p.nextId == old(p.nextId)
    ensures IsAdmin(session) ==>
      var parsed := ChallengeFromForm(form, old(p.nextId));
      if parsed.Err? then r == Err(parsed.message) && p.challenges == old(p.challenges) && p.nextId == old(p.nextId)
      else r == Ok(ChallengeDeployed) && p.challenges == old(p.challenges)[parsed.value.id := parsed.value] && p.nextId == old(p.nextId) + 1
  {
    if !IsAdmin(session) {
      return Err(Unauthorized);
    }
    r := Deploy(p, form);
  }

  /** The admin path of createChallenge: parse the form, then insert the challenge it describes. */
  method Deploy(p: Platform, form: ChallengeForm) returns (r: Reply<string>)
    requires p.Valid()
    modifies p`challenges, p`nextId
    ensures p.Valid()
    ensures old(LedgerMatches(p.teams, p.challenges, p.submissions)) ==> LedgerMatches(p.teams, p.challenges, p.submissions)
    ensures
      var parsed := ChallengeFromForm(form, old(p.nextId));
      if parsed.Err? then r == Err(parsed.message) && p.challenges == old(p.challenges) && p.nextId == old(p.nextId)
      else r == Ok(ChallengeDeployed) && p.challenges == old(p.challenges)[parsed.value.id := parsed.value] && p.nextId == old(p.nextId) + 1
  {
    var parsed := ChallengeFromForm(form, p.nextId);
    if parsed.Err? {
      r := Err(parsed.message);
    } else {
      p.AddChallenge(parsed.value);
      r := Ok(ChallengeDeployed);
    }
  }

  // ------------------------------------------------------------- delete, stop, reset

  /**
   * deleteChallenge. The challenge's submissions and lease rows are deleted first (the instances
   * are not released), then the challenge itself; a missing challenge fails at that last step.
   * Team scores are left as they are.
   */
  method DeleteChallenge(p: Platform, session: Option<Session>, id: Option<Id>) returns (r: Reply<string>)
    requires p.Valid()
    modifies p`challenges, p`leases, p`submissions, p`journal
    ensures p.Valid()
    ensures !IsAdmin(session) || id.None? ==>
      && r == Err(if !IsAdmin(session) then Unauthorized else NoIdProvided)
      && p.challenges == old(p.challenges) && p.leases == old(p.leases) && p.submissions == old(p.submissions)
      && p.journal == old(p.journal)
    ensures IsAdmin(session) && id.Some? ==>
      && r == (if id.value in old(p.challenges) then Ok(ChallengeDecommissioned) else Err(DeleteFailed))
      && p.submissions == SubmissionsWithout(old(p.submissions), id.value)
      && p.leases == LeasesWithout(old(p.leases), id.value)
      && p.challenges == old(p.challenges) - {id.value}
      && p.journal == old(p.journal) + [LeasesOfChallengeDeleted(id.value)]
    ensures forall now :: ActiveLeaseUnique(old(p.leases), now) ==> ActiveLeaseUnique(p.leases, now)
  {
    if !IsAdmin(session) {
      return Err(Unauthorized);
    }
    if id.None? {
      return Err(NoIdProvided);
    }
    var c := id.value;
    FilterKeepsLeasesUnique(p.leases, c);
    ConsistentDeleteChallenge(p.users, p.teams, p.challenges, p.leases, p.submissions, p.nextId, c);
    p.submissions := SubmissionsWithout(p.submissions, c);
    p.leases := LeasesWithout(p.leases, c);
    p.journal := p.journal + [LeasesOfChallengeDeleted(c)];
    // The last delete fails when the row is missing; removing an absent key changes nothing.
    var present := c in p.challenges;
    p.challenges := p.challenges - {c};
    r := if present then Ok(ChallengeDecommissioned) else Err(DeleteFailed);
  }

  /**
   * Deleting a challenge leaves every team's score as it was, so a score that matched the ledger
   * now exceeds what the remaining ledger credits the team by the points it earned on that challenge.
   */
  lemma DeletionKeepsEarnedPoints(teams: map<Id, Team>, challenges: map<Id, Challenge>, submissions: seq<Submission>, c: Id, k: Id)
    requires LedgerMatches(teams, challenges, submissions) && k in teams
    ensures teams[k].score
      == Earned(SubmissionsWithout(submissions, c), challenges - {c}, k) + EarnedOn(submissions, challenges, k, c)
  {
    EarnedSplit(submissions, challenges, k, c);
  }

  /**
   * adminStopContainer. The lease row with the given identity, expired or not, has its instance
   * released and is then deleted; the answer is "Container terminated" whether or not it existed.
   */
  method AdminStopContainer(p: Platform, session: Option<Session>, leaseId: Option<Id>) returns (r: Reply<string>)
    requires p.Valid()
    modifies p`leases, p`journal
    ensures p.Valid()
    ensures !IsAdmin(session) || leaseId.None? ==>
      && r == Err(if !IsAdmin(session) then Unauthorized else NoContainerIdProvided)
      && p.leases == old(p.leases) && p.journal == old(p.journal)
    ensures IsAdmin(session) && leaseId.Some? ==>
      && r == Ok(ContainerTerminated)
      && match FindLease(old(p.leases), leaseId.value)
         case None => p.leases == old(p.leases) && p.journal == old(p.journal)
         case Some(i) =>
           && p.leases == RemoveAt(old(p.leases), i)
           && p.journal == old(p.journal) + [ReleaseCall(old(p.leases)[i].handle), LeaseDeleted(leaseId.value)]
    ensures IsAdmin(session) && leaseId.Some? ==> FindLease(p.leases, leaseId.value).None?
    ensures forall now :: ActiveLeaseUnique(old(p.leases), now) ==> ActiveLeaseUnique(p.leases, now)
  {
    if !IsAdmin(session) {
      return Err(Unauthorized);
    }
    if leaseId.None? {
      return Err(NoContainerIdProvided);
    }
    var found := FindLease(p.leases, leaseId.value);
    if found.Some? {
      var i := found.value;
      RemovedLeaseGone(p.leases, i);
      forall now | ActiveLeaseUnique(p.leases, now) ensures ActiveLeaseUnique(RemoveAt(p.leases, i), now) {
        RemovalKeepsLeasesUnique(p.leases, i, now);
      }
      p.Retire(i);
    }
    r := Ok(ContainerTerminated);
  }

  /** With distinct identities, deleting the row leaves no row with its identity. */
  lemma RemovedLeaseGone(leases: seq<Lease>, i: nat)
    requires i < |leases| && DistinctIds(leases)
    ensures FindLease(RemoveAt(leases, i), leases[i].id).None?
  {
    var rest := RemoveAt(leases, i);
    forall k | 0 <= k < |rest| ensures rest[k].id != leases[i].id {
      assert rest[k] == leases[if k < i then k else k + 1];
    }
  }

  /**
   * resetScores. Every submission is deleted and every team's score set to 0; lease rows,
   * challenges and memberships are untouched. Afterwards the scores agree with the ledger.
   */
  method ResetScores(p: Platform, session: Option<Session>) returns (r: Reply<string>)
    requires p.Valid()
    modifies p`teams, p`submissions
    ensures p.Valid()
    ensures !IsAdmin(session) ==> r == Err(Unauthorized) && p.teams == old(p.teams) && p.submissions == old(p.submissions)
    ensures IsAdmin(session) ==>
      && r == Ok(ScoresReset) && p.submissions == [] && p.teams == ZeroScores(old(p.teams))
      && LedgerMatches(p.teams, p.challenges, p.submissions) && SolvedOnce(p.submissions)
  {
    if !IsAdmin(session) {
      return Err(Unauthorized);
    }
    ConsistentResetScores(p.users, p.teams, p.challenges, p.leases, p.submissions, p.nextId);
    p.submissions := [];
    p.teams := ZeroScores(p.teams);
    r := Ok(ScoresReset);
  }
}
