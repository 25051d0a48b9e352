/**
 One downloaded list on disk: the body and the ETag that vouches for it, replaced step
 by step; every write, rename and removal may fail, a crash may come between any two,
 and what answers a request need not be the list.
 */
module ListStore {
  import opened Wrappers

  /** A page served with status 200: its text, and its ETag if it has one. */
  datatype Page = Page(text: string, tag: Option<string>)

  /**
   A stored body, with the ETag it came with. `from` counts the host's publications when it
   was downloaded; `listed` says that it is the last of them, and not some other page.
   */
  datatype Body = Body(text: string, tag: Option<string>, from: nat, listed: bool)

  datatype Tag = Tag(value: string, from: nat, listed: bool)

  /** Both files are written through the same temporary file. */
  datatype Temp = NoTemp | Garbage | TempBody(body: Body) | TempTag(tag: Tag)

  datatype Disk = Disk(body: Option<Body>, etag: Option<Tag>, temp: Temp)

  /** Which texts are stored: those in which a rule is found. */
  type Accepts = string -> bool

  function OwnTag(b: Body): Option<Tag> {
    if b.tag.Some? then Some(Tag(b.tag.value, b.from, b.listed)) else None
  }

  /** The `If-None-Match` value: without a body on disk an ETag is never sent. */
  function Condition(d: Disk): Option<string> {
    if d.body.Some? && d.etag.Some? && d.etag.value.value != "" then Some(d.etag.value.value) else None
  }

  // ---- Steps ----

  /** Where a fetch is. */
  datatype Phase =
    | Idle
    | Asked(condition: Option<string>)
    | Confirmed(current: nat)
    | Downloaded(body: Body)
    | WritingBody(body: Body)
    | RenamingBody(body: Body)
    | WritingTag(written: Tag)
    | RenamingTag(written: Tag)
    | RemovingTag

  /** `host` lists what the host has published, the last one is current; `others` every other page served. */
  datatype State = State(host: seq<Page>, others: seq<Page>, disk: Disk, phase: Phase)

  datatype Action =
    | Publish(p: Page)
    | Ask
    | Fault
    | NotModified
    | Full
    | OtherPage(page: Page)
    | Read
    | Check
    | WriteBody(ok: bool)
    | RenameBody(ok: bool)
    | WriteTag(ok: bool)
    | RenameTag(ok: bool)
    | RemoveTag(ok: bool)
    | Crash

  const EMPTY: Disk := Disk(None, None, NoTemp)

  predicate Can(s: State, a: Action) {
    match a
    case Publish(_) => true
    case Ask => s.phase.Idle?
    case Fault => s.phase.Asked?
    case NotModified =>
      // A 304 is only sent for a condition that names the current version.
      s.phase.Asked? && s.phase.condition.Some? && s.host != [] && s.host[|s.host| - 1].tag == s.phase.condition
    case Full => s.phase.Asked? && s.host != []
    case OtherPage(_) => s.phase.Asked?
    case Read => s.phase.Confirmed?
    case Check => s.phase.Downloaded?
    case WriteBody(_) => s.phase.WritingBody?
    case RenameBody(_) => s.phase.RenamingBody?
    case WriteTag(_) => s.phase.WritingTag?
    case RenameTag(_) => s.phase.RenamingTag?
    case RemoveTag(_) => s.phase.RemovingTag?
    case Crash => true
  }

  /** The current publication as it is downloaded. */
  function Current(host: seq<Page>): Body
    requires host != []
  {
    Body(host[|host| - 1].text, host[|host| - 1].tag, |host|, true)
  }

  function Elsewhere(host: seq<Page>, page: Page): Body {
    Body(page.text, page.tag, |host|, false)
  }

  function TagStep(b: Body): Phase {
    if OwnTag(b).Some? then WritingTag(OwnTag(b).value) else RemovingTag
  }

  /** A crash while a file is being written leaves the temporary file in pieces. */
  function Torn(s: State): Temp {
    if s.phase.WritingBody? || s.phase.WritingTag? then Garbage else s.disk.temp
  }

  function Do(s: State, a: Action, accepts: Accepts): State
    requires Can(s, a)
  {
    match a
    case Publish(p) => s.(host := s.host + [p])
    case Ask => s.(phase := Asked(Condition(s.disk)))
    case Fault => s.(phase := Idle)
    case NotModified => s.(phase := Confirmed(|s.host| - 1))
    case Full => s.(phase := Downloaded(Current(s.host)))
    case OtherPage(page) => s.(others := s.others + [page], phase := Downloaded(Elsewhere(s.host, page)))
    case Read => s.(phase := Idle)
    case Check => s.(phase := if accepts(s.phase.body.text) then WritingBody(s.phase.body) else Idle)
    case WriteBody(ok) =>
      if ok then s.(disk := s.disk.(temp := TempBody(s.phase.body)), phase := RenamingBody(s.phase.body))
      else s.(disk := s.disk.(temp := Garbage), phase := RemovingTag)
    case RenameBody(ok) =>
      if ok then s.(disk := Renamed(s.disk), phase := TagStep(s.phase.body)) else s.(phase := RemovingTag)
    case WriteTag(ok) =>
      if ok then s.(disk := s.disk.(temp := TempTag(s.phase.written)), phase := RenamingTag(s.phase.written))
      else s.(disk := s.disk.(temp := Garbage), phase := RemovingTag)
    case RenameTag(ok) =>
      if ok then s.(disk := RenamedTag(s.disk), phase := Idle) else s.(phase := RemovingTag)
    case RemoveTag(ok) => s.(disk := if ok then s.disk.(etag := None) else s.disk, phase := Idle)
    case Crash => s.(disk := s.disk.(temp := Torn(s)), phase := Idle)
  }

  /** The temporary file, whatever it holds, becomes the body. */
  function Renamed(d: Disk): Disk {
    match d.temp
    case TempBody(b) => Disk(Some(b), d.etag, NoTemp)
    case _ => Disk(None, d.etag, NoTemp)
  }

  function RenamedTag(d: Disk): Disk {
    match d.temp
    case TempTag(t) => Disk(d.body, Some(t), NoTemp)
    case _ => Disk(d.body, None, NoTemp)
  }

  /** What has happened so far, latest last. */
  datatype Trace = Start | Then(before: Trace, a: Action)

  /** The trace is possible and leads to `s`, from an empty directory and a host that has published nothing. */
  ghost predicate Leads(trace: Trace, s: State, accepts: Accepts)
    decreases trace, 0
  {
    match trace
    case Start => s == State([], [], EMPTY, Idle)
    case Then(before, a) => exists s0 :: LeadsBy(before, s0, a, s, accepts)
  }

  ghost predicate LeadsBy(before: Trace, s0: State, a: Action, s: State, accepts: Accepts)
    decreases before, 1
  {
    Leads(before, s0, accepts) && Can(s0, a) && s == Do(s0, a, accepts)
  }

  // ---- Invariants ----

  /** `page` is the publication number `from`, or some other page served. */
  ghost predicate Served(s: State, page: Page, from: nat, listed: bool) {
    from <= |s.host| && if listed then from > 0 && s.host[from - 1] == page else page in s.others
  }

  ghost predicate BodyServed(s: State, b: Body) {
    Served(s, Page(b.text, b.tag), b.from, b.listed)
  }

  /** The ETag came with a page that holds rules. */
  ghost predicate TagServed(s: State, t: Tag, accepts: Accepts) {
    exists text :: TagOf(s, text, t, accepts)
  }

  ghost predicate TagOf(s: State, text: string, t: Tag, accepts: Accepts) {
    Served(s, Page(text, Some(t.value)), t.from, t.listed) && accepts(text)
  }

  /** The stored body holds rules, and the ETag did not come later than it. */
  ghost predicate DiskFits(s: State, accepts: Accepts) {
    && (s.disk.body.Some? ==> BodyServed(s, s.disk.body.value) && accepts(s.disk.body.value.text))
    && (s.disk.etag.Some? ==>
          && TagServed(s, s.disk.etag.value, accepts)
          && s.disk.body.Some? && s.disk.etag.value.from <= s.disk.body.value.from)
  }

  /** Nothing on disk is newer than `from`. */
  ghost predicate NoNewer(d: Disk, from: nat) {
    d.body.Some? ==> d.body.value.from <= from
  }

  ghost predicate Storing(s: State, b: Body, accepts: Accepts) {
    BodyServed(s, b) && accepts(b.text) && NoNewer(s.disk, b.from)
  }

  ghost predicate Tagging(s: State, t: Tag, accepts: Accepts) {
    TagServed(s, t, accepts) && s.disk.body.Some? && OwnTag(s.disk.body.value) == Some(t)
  }

  ghost predicate PhaseFits(s: State, accepts: Accepts) {
    match s.phase
    case Idle => true
    case RemovingTag => true
    case Asked(condition) => condition == Condition(s.disk)
    case Confirmed(current) =>
      && current < |s.host| && Condition(s.disk).Some? && s.host[current].tag == Condition(s.disk)
      && NoNewer(s.disk, current + 1)
    case Downloaded(b) => BodyServed(s, b) && NoNewer(s.disk, b.from)
    case WritingBody(b) => Storing(s, b, accepts)
    case RenamingBody(b) => Storing(s, b, accepts) && s.disk.temp == TempBody(b)
    case WritingTag(t) => Tagging(s, t, accepts)
    case RenamingTag(t) => Tagging(s, t, accepts) && s.disk.temp == TempTag(t)
  }

  ghost predicate Invariant(s: State, accepts: Accepts) {
    DiskFits(s, accepts) && PhaseFits(s, accepts)
  }

  /** More pages served take nothing back. */
  lemma ServedStays(s: State, t: State, page: Page, from: nat, listed: bool)
    requires Served(s, page, from, listed) && s.host <= t.host && s.others <= t.others
    ensures Served(t, page, from, listed)
  {
  }

  lemma TagStays(s: State, t: State, tag: Tag, accepts: Accepts)
    requires TagServed(s, tag, accepts) && s.host <= t.host && s.others <= t.others
    ensures TagServed(t, tag, accepts)
  {
    var text :| TagOf(s, text, tag, accepts);
    ServedStays(s, t, Page(text, Some(tag.value)), tag.from, tag.listed);
    assert TagOf(t, text, tag, accepts);
  }

  lemma DiskStays(s: State, t: State, accepts: Accepts)
    requires DiskFits(s, accepts) && t.disk == s.disk && s.host <= t.host && s.others <= t.others
    ensures DiskFits(t, accepts)
  {
    if s.disk.etag.Some? { TagStays(s, t, s.disk.etag.value, accepts); }
  }

  lemma PublishKeeps(s: State, p: Page, accepts: Accepts)
    requires Invariant(s, accepts)
    ensures Invariant(s.(host := s.host + [p]), accepts)
  {
    var t := s.(host := s.host + [p]);
    DiskStays(s, t, accepts);
    if s.phase.WritingTag? || s.phase.RenamingTag? { TagStays(s, t, s.phase.written, accepts); }
  }

  /** Steps that only ask, hear or decide. */
  lemma TalkKeeps(s: State, a: Action, accepts: Accepts)
    requires Invariant(s, accepts) && Can(s, a)
    requires a.Ask? || a.Fault? || a.NotModified? || a.Read? || a.Check?
    ensures Invariant(Do(s, a, accepts), accepts)
  {
    DiskStays(s, Do(s, a, accepts), accepts);
  }

  /** A body arrives: it is no older than what is on disk. */
  lemma ArrivalKeeps(s: State, a: Action, accepts: Accepts)
    requires Invariant(s, accepts) && Can(s, a) && (a.Full? || a.OtherPage?)
    ensures Invariant(Do(s, a, accepts), accepts)
  {
    DiskStays(s, Do(s, a, accepts), accepts);
  }

  lemma OwnTagServed(s: State, b: Body, accepts: Accepts)
    requires BodyServed(s, b) && accepts(b.text) && OwnTag(b).Some?
    ensures TagServed(s, OwnTag(b).value, accepts)
  {
    assert TagOf(s, b.text, OwnTag(b).value, accepts);
  }

  lemma WriteBodyKeeps(s: State, ok: bool, accepts: Accepts)
    requires Invariant(s, accepts) && s.phase.WritingBody?
    ensures Invariant(Do(s, WriteBody(ok), accepts), accepts)
  {
    var t := Do(s, WriteBody(ok), accepts);
    if s.disk.etag.Some? { TagStays(s, t, s.disk.etag.value, accepts); }
  }

  lemma RenameBodyKeeps(s: State, ok: bool, accepts: Accepts)
    requires Invariant(s, accepts) && s.phase.RenamingBody?
    ensures Invariant(Do(s, RenameBody(ok), accepts), accepts)
  {
    var t := Do(s, RenameBody(ok), accepts);
    if s.disk.etag.Some? { TagStays(s, t, s.disk.etag.value, accepts); }
    if OwnTag(s.phase.body).Some? { OwnTagServed(t, s.phase.body, accepts); }
  }

  lemma TagStepKeeps(s: State, a: Action, accepts: Accepts)
    requires Invariant(s, accepts) && Can(s, a) && (a.WriteTag? || a.RenameTag? || a.RemoveTag? || a.Crash?)
    ensures Invariant(Do(s, a, accepts), accepts)
  {
    var t := Do(s, a, accepts);
    if s.disk.etag.Some? { TagStays(s, t, s.disk.etag.value, accepts); }
    if s.phase.WritingTag? || s.phase.RenamingTag? { TagStays(s, t, s.phase.written, accepts); }
  }

  lemma StepKeeps(s: State, a: Action, accepts: Accepts)
    requires Invariant(s, accepts) && Can(s, a)
    ensures Invariant(Do(s, a, accepts), accepts)
  {
    if a.Publish? {
      PublishKeeps(s, a.p, accepts);
    } else if a.WriteBody? {
      WriteBodyKeeps(s, a.ok, accepts);
    } else if a.RenameBody? {
      RenameBodyKeeps(s, a.ok, accepts);
    } else if a.Full? || a.OtherPage? {
      ArrivalKeeps(s, a, accepts);
    } else if a.WriteTag? || a.RenameTag? || a.RemoveTag? || a.Crash? {
      TagStepKeeps(s, a, accepts);
    } else {
      TalkKeeps(s, a, accepts);
    }
  }

  lemma {:induction false} TraceKeeps(trace: Trace, s: State, accepts: Accepts)
    requires Leads(trace, s, accepts)
    ensures Invariant(s, accepts)
    decreases trace
  {
    match trace
    case Start =>
    case Then(before, a) =>
      var s0 :| LeadsBy(before, s0, a, s, accepts);
      TraceKeeps(before, s0, accepts);
      StepKeeps(s0, a, accepts);
  }

  // ---- Main results ----

  /**
   Whatever is served, whatever fails and wherever a crash comes: the stored body is a
   whole page that was served and holds at least one rule, and the ETag on disk came with
   a page of the same time or an earlier one.
   */
  lemma StoreSurvivesCrashes(trace: Trace, s: State, accepts: Accepts)
    requires Leads(trace, s, accepts)
    ensures s.disk.body.Some? ==>
              var b := s.disk.body.value;
              && accepts(b.text)
              && if b.listed then 0 < b.from <= |s.host| && s.host[b.from - 1] == Page(b.text, b.tag)
                 else Page(b.text, b.tag) in s.others
    ensures s.disk.etag.Some? ==>
              var t := s.disk.etag.value;
              && s.disk.body.Some? && t.from <= s.disk.body.value.from
              && (t.listed ==> 0 < t.from <= |s.host| && s.host[t.from - 1].tag == Some(t.value))
  {
    TraceKeeps(trace, s, accepts);
  }

  /** No two publications share an ETag: the host never returns to an earlier version. */
  ghost predicate NeverReturns(host: seq<Page>) {
    forall i, j :: 0 <= i < j < |host| && host[i].tag.Some? ==> host[i].tag != host[j].tag
  }

  /** No other page would be taken for a list. */
  ghost predicate OthersRefused(others: seq<Page>, accepts: Accepts) {
    forall page :: page in others ==> !accepts(page.text)
  }

  /** The stored body is the publication a 304 has just confirmed. */
  ghost predicate ConfirmsCurrent(s: State)
    requires s.phase.Confirmed?
  {
    s.disk.body.Some? && s.phase.current < |s.host| && s.disk.body.value.text == s.host[s.phase.current].text
  }

  lemma SameTagSameVersion(host: seq<Page>, i: nat, j: nat)
    requires NeverReturns(host) && i < |host| && j < |host| && host[i].tag.Some? && host[i].tag == host[j].tag
    ensures i == j
  {
  }

  /** With an ETag of the host's own that never repeats, the stored body was downloaded while the current version was. */
  lemma ConfirmedInTime(s: State, accepts: Accepts)
    requires Invariant(s, accepts) && s.phase.Confirmed? && NeverReturns(s.host)
    requires s.disk.etag.Some? && s.disk.etag.value.listed
    ensures s.disk.body.Some? && s.disk.body.value.from == s.phase.current + 1 <= |s.host|
    ensures s.disk.body.value.listed ==> ConfirmsCurrent(s)
  {
    var t := s.disk.etag.value;
    var text :| TagOf(s, text, t, accepts);
    SameTagSameVersion(s.host, t.from - 1, s.phase.current);
  }

  /**
   If the host never returns to an earlier version and no other page holds a rule, a 304
   is only accepted for a stored copy that is current.
   */
  lemma ConfirmedIsCurrent(trace: Trace, s: State, accepts: Accepts)
    requires Leads(trace, s, accepts) && s.phase.Confirmed?
    requires NeverReturns(s.host) && OthersRefused(s.others, accepts)
    ensures ConfirmsCurrent(s)
  {
    TraceKeeps(trace, s, accepts);
    var text :| TagOf(s, text, s.disk.etag.value, accepts);
    ConfirmedInTime(s, accepts);
  }

  /** No other page looks like a publication, by its text or by its ETag. */
  ghost predicate OthersApart(s: State) {
    forall page, i :: page in s.others && 0 <= i < |s.host| ==>
      page.text != s.host[i].text && (page.tag.Some? ==> page.tag != s.host[i].tag)
  }

  /**
   With other pages that hold rules but look like no publication, and a host that never
   returns, an accepted 304 confirms the stored copy if and only if that copy is the list
   and not one of those pages.
   */
  lemma ConfirmedUnlessOther(trace: Trace, s: State, accepts: Accepts)
    requires Leads(trace, s, accepts) && s.phase.Confirmed? && NeverReturns(s.host) && OthersApart(s)
    ensures s.disk.body.Some?
    ensures ConfirmsCurrent(s) <==> s.disk.body.value.listed
  {
    TraceKeeps(trace, s, accepts);
    var t := s.disk.etag.value;
    var text :| TagOf(s, text, t, accepts);
    assert t.listed;
    ConfirmedInTime(s, accepts);
  }

  /** ETags tell texts apart: two pages with one have equal ETags exactly when their texts are equal. */
  ghost predicate TagsIdentify(pages: seq<Page>) {
    forall a, b :: a in pages && b in pages && a.tag.Some? ==> (a.tag == b.tag <==> a.text == b.text)
  }

  /**
   If ETags identify texts among all pages served, an accepted 304 confirms the stored
   copy if and only if the ETag on disk is the one that copy came with.
   */
  lemma ConfirmedExactly(trace: Trace, s: State, accepts: Accepts)
    requires Leads(trace, s, accepts) && s.phase.Confirmed? && TagsIdentify(s.host + s.others)
    ensures s.disk.body.Some? && s.disk.etag.Some?
    ensures ConfirmsCurrent(s) <==> s.disk.body.value.tag == Some(s.disk.etag.value.value)
  {
    TraceKeeps(trace, s, accepts);
    var b, c := s.disk.body.value, s.host[s.phase.current];
    var pages := s.host + s.others;
    assert pages[s.phase.current] == c;
    BodyAmongPages(s, b);
    assert c in pages && Page(b.text, b.tag) in pages && c.tag.Some?;
  }

  lemma BodyAmongPages(s: State, b: Body)
    requires BodyServed(s, b)
    ensures Page(b.text, b.tag) in s.host + s.others
  {
    if b.listed { assert (s.host + s.others)[b.from - 1] == s.host[b.from - 1]; }
  }

  // ---- Without crashes ----

  /** No crash came, and every removal of an ETag that was tried succeeded; writes and renames may have failed. */
  predicate Orderly(trace: Trace) {
    match trace
    case Start => true
    case Then(before, a) => Orderly(before) && !a.Crash? && (a.RemoveTag? ==> a.ok)
  }

  /** Between fetches the ETag on disk is the stored body's own, or there is none. */
  ghost predicate OwnOrNone(s: State) {
    match s.phase
    case RemovingTag => true
    case WritingTag(t) => s.disk.body.Some? && OwnTag(s.disk.body.value) == Some(t)
    case RenamingTag(t) => s.disk.body.Some? && OwnTag(s.disk.body.value) == Some(t) && s.disk.temp == TempTag(t)
    case RenamingBody(b) => s.disk.temp == TempBody(b) && (s.disk.etag.Some? ==> OwnEtag(s.disk))
    case _ => s.disk.etag.Some? ==> OwnEtag(s.disk)
  }

  ghost predicate OwnEtag(d: Disk) {
    d.body.Some? && OwnTag(d.body.value) == d.etag
  }

  lemma OrderlyStep(s: State, a: Action, accepts: Accepts)
    requires OwnOrNone(s) && Can(s, a) && !a.Crash? && (a.RemoveTag? ==> a.ok)
    ensures OwnOrNone(Do(s, a, accepts))
  {
  }

  lemma {:induction false} OrderlyKeeps(trace: Trace, s: State, accepts: Accepts)
    requires Leads(trace, s, accepts) && Orderly(trace)
    ensures OwnOrNone(s)
    decreases trace
  {
    match trace
    case Start =>
    case Then(before, a) =>
      var s0 :| LeadsBy(before, s0, a, s, accepts);
      OrderlyKeeps(before, s0, accepts);
      OrderlyStep(s0, a, accepts);
  }

  /**
   While no crash comes and no removal of an ETag fails, whatever else fails and whatever
   pages are served: if ETags identify texts, every 304 accepted is right.
   */
  lemma OrderlyIsConfirmedRightly(trace: Trace, s: State, accepts: Accepts)
    requires Leads(trace, s, accepts) && Orderly(trace) && s.phase.Confirmed? && TagsIdentify(s.host + s.others)
    ensures ConfirmsCurrent(s)
  {
    OrderlyKeeps(trace, s, accepts);
    ConfirmedExactly(trace, s, accepts);
  }

  // ---- Runs ----

  ghost predicate Reachable(s: State, accepts: Accepts) {
    exists trace :: Leads(trace, s, accepts)
  }

  lemma ReachableStep(s: State, a: Action, accepts: Accepts)
    requires Reachable(s, accepts) && Can(s, a)
    ensures Reachable(Do(s, a, accepts), accepts)
  {
    var trace :| Leads(trace, s, accepts);
    assert LeadsBy(trace, s, a, Do(s, a, accepts), accepts);
    assert Leads(Then(trace, a), Do(s, a, accepts), accepts);
  }

  /** A downloaded body that holds rules, stored as far as the renamed file. */
  lemma StoreBody(s: State, b: Body, accepts: Accepts)
    requires Reachable(s, accepts) && s.phase == Downloaded(b) && accepts(b.text)
    ensures Reachable(s.(disk := Disk(Some(b), s.disk.etag, NoTemp), phase := TagStep(b)), accepts)
  {
    ReachableStep(s, Check, accepts);
    var s1 := s.(phase := WritingBody(b));
    ReachableStep(s1, WriteBody(true), accepts);
    var s2 := s1.(disk := s1.disk.(temp := TempBody(b)), phase := RenamingBody(b));
    assert Do(s1, WriteBody(true), accepts) == s2;
    ReachableStep(s2, RenameBody(true), accepts);
  }

  /** The current publication stored with its ETag. */
  lemma StoreCurrent(s: State, accepts: Accepts)
    requires Reachable(s, accepts) && s.phase.Idle? && s.host != []
    requires accepts(Current(s.host).text) && OwnTag(Current(s.host)).Some?
    ensures var b := Current(s.host); Reachable(s.(disk := Disk(Some(b), OwnTag(b), NoTemp)), accepts)
  {
    var b := Current(s.host);
    var s1 := StoreCurrentBody(s, accepts);
    var t := OwnTag(b).value;
    ReachableStep(s1, WriteTag(true), accepts);
    var s2 := s1.(disk := s1.disk.(temp := TempTag(t)), phase := RenamingTag(t));
    assert Do(s1, WriteTag(true), accepts) == s2;
    ReachableStep(s2, RenameTag(true), accepts);
  }

  lemma StoreCurrentBody(s: State, accepts: Accepts) returns (t: State)
    requires Reachable(s, accepts) && s.phase.Idle? && s.host != [] && accepts(Current(s.host).text)
    ensures var b := Current(s.host);
            t == s.(disk := Disk(Some(b), s.disk.etag, NoTemp), phase := TagStep(b)) && Reachable(t, accepts)
  {
    ReachableStep(s, Ask, accepts);
    var s1 := Do(s, Ask, accepts);
    ReachableStep(s1, Full, accepts);
    var s2 := Do(s1, Full, accepts);
    StoreBody(s2, Current(s.host), accepts);
    t := s.(disk := Disk(Some(Current(s.host)), s.disk.etag, NoTemp), phase := TagStep(Current(s.host)));
  }

  /** The host publishes `p`, and the 304 for it is accepted. */
  lemma AskAgain(s: State, accepts: Accepts)
    requires Reachable(s, accepts) && s.phase.Idle? && s.host != []
    requires Condition(s.disk).Some? && s.host[|s.host| - 1].tag == Condition(s.disk)
    ensures Reachable(s.(phase := Confirmed(|s.host| - 1)), accepts)
  {
    ReachableStep(s, Ask, accepts);
    ReachableStep(Do(s, Ask, accepts), NotModified, accepts);
  }

  lemma PublishFirst(a: Page, accepts: Accepts)
    requires accepts(a.text) && a.tag.Some?
    ensures var b := Current([a]); Reachable(State([a], [], Disk(Some(b), OwnTag(b), NoTemp), Idle), accepts)
  {
    var s := State([], [], EMPTY, Idle);
    assert Leads(Start, s, accepts);
    ReachableStep(s, Publish(a), accepts);
    assert [] + [a] == [a];
    StoreCurrent(s.(host := [a]), accepts);
  }

  /** The second list's body is stored, a crash comes, and the ETag is still the first one's. */
  lemma SecondStored(a: Page, b: Page, accepts: Accepts) returns (s: State)
    requires accepts(a.text) && accepts(b.text) && a.tag.Some? && b.tag.Some?
    ensures Reachable(s, accepts)
    ensures s == State([a, b], [], Disk(Some(Current([a, b])), OwnTag(Current([a])), Garbage), Idle)
  {
    PublishFirst(a, accepts);
    var s1 := State([a], [], Disk(Some(Current([a])), OwnTag(Current([a])), NoTemp), Idle);
    ReachableStep(s1, Publish(b), accepts);
    assert [a] + [b] == [a, b];
    var s2 := StoreCurrentBody(s1.(host := [a, b]), accepts);
    ReachableStep(s2, Crash, accepts);
    s := s2.(disk := s2.disk.(temp := Garbage), phase := Idle);
  }

  /** The page is stored, and the ETag is still the list's. */
  lemma OtherStored(a: Page, page: Page, accepts: Accepts) returns (s: State)
    requires accepts(a.text) && accepts(page.text) && a.tag.Some? && page.tag.None?
    ensures Reachable(s, accepts)
    ensures s == State([a], [page], Disk(Some(Elsewhere([a], page)), OwnTag(Current([a])), NoTemp), Idle)
  {
    PublishFirst(a, accepts);
    var s1 := State([a], [], Disk(Some(Current([a])), OwnTag(Current([a])), NoTemp), Idle);
    ReachableStep(s1, Ask, accepts);
    var s2 := Do(s1, Ask, accepts);
    ReachableStep(s2, OtherPage(page), accepts);
    var b := Elsewhere([a], page);
    assert [] + [page] == [page];
    var s3 := s1.(others := [page], phase := Downloaded(b));
    StoreBody(s3, b, accepts);
    var s4 := s3.(disk := Disk(Some(b), s1.disk.etag, NoTemp), phase := RemovingTag);
    ReachableStep(s4, RemoveTag(false), accepts);
    s := s4.(phase := Idle);
  }

  /**
   Why the host must not go back: it publishes one list, another and the first again, a
   crash falls between the body and the ETag of the second, and the 304 for the first
   confirms the stored second.
   */
  lemma GoingBack(a: Page, b: Page, accepts: Accepts) returns (s: State)
    requires accepts(a.text) && accepts(b.text) && a.text != b.text
    requires a.tag.Some? && b.tag.Some? && a.tag != b.tag && a.tag.value != ""
    ensures Reachable(s, accepts) && s.phase.Confirmed? && s.others == []
    ensures s.host == [a, b, a] && TagsIdentify(s.host) && !ConfirmsCurrent(s)
  {
    s := SecondStored(a, b, accepts);
    ReachableStep(s, Publish(a), accepts);
    assert [a, b] + [a] == [a, b, a];
    s := s.(host := [a, b, a]);
    AskAgain(s, accepts);
    s := s.(phase := Confirmed(2));
  }

  /**
   Why other pages must hold no rules: one that does, without an ETag, is stored over the
   list, the removal of the list's ETag fails, and the 304 for the list confirms the page.
   The host has only ever published one version.
   */
  lemma OtherPageConfirmed(a: Page, page: Page, accepts: Accepts) returns (s: State)
    requires accepts(a.text) && accepts(page.text) && a.text != page.text
    requires a.tag.Some? && a.tag.value != "" && page.tag.None?
    ensures Reachable(s, accepts) && s.phase.Confirmed?
    ensures s.host == [a] && NeverReturns(s.host) && s.others == [page]
    ensures OthersApart(s) && !ConfirmsCurrent(s)
  {
    s := OtherStored(a, page, accepts);
    AskAgain(s, accepts);
    s := s.(phase := Confirmed(0));
  }

  // ---- The fetch itself ----

  /** Which of the file operations of a store succeed. */
  datatype Io = Io(writeBody: bool, renameBody: bool, writeTag: bool, renameTag: bool, removeTag: bool)

  function WithoutTag(d: Disk, removed: bool): Disk {
    if removed then d.(etag := None) else d
  }

  /** The temporary file after a write or rename that failed. */
  function LeftOver(wrote: bool, whole: Temp): Temp {
    if wrote then whole else Garbage
  }

  /** The disk once a downloaded body has been stored, with whatever failed. */
  function Stored(d: Disk, b: Body, io: Io): Disk {
    if !io.writeBody || !io.renameBody then
      WithoutTag(d.(temp := LeftOver(io.writeBody, TempBody(b))), io.removeTag)
    else if OwnTag(b).None? then WithoutTag(Disk(Some(b), d.etag, NoTemp), io.removeTag)
    else if !io.writeTag || !io.renameTag then
      WithoutTag(Disk(Some(b), d.etag, LeftOver(io.writeTag, TempTag(OwnTag(b).value))), io.removeTag)
    else Disk(Some(b), OwnTag(b), NoTemp)
  }

  lemma RemovalIsReachable(s: State, ok: bool, accepts: Accepts)
    requires Reachable(s, accepts) && s.phase.RemovingTag?
    ensures Reachable(s.(disk := WithoutTag(s.disk, ok), phase := Idle), accepts)
  {
    ReachableStep(s, RemoveTag(ok), accepts);
  }

  lemma TagStored(s: State, io: Io, accepts: Accepts)
    requires Reachable(s, accepts) && s.phase.WritingTag? && s.disk.body.Some?
    ensures var d := s.disk; var t := s.phase.written;
            Reachable(s.(disk := if !io.writeTag || !io.renameTag
                                 then WithoutTag(Disk(d.body, d.etag, LeftOver(io.writeTag, TempTag(t))), io.removeTag)
                                 else Disk(d.body, Some(t), NoTemp), phase := Idle), accepts)
  {
    ReachableStep(s, WriteTag(io.writeTag), accepts);
    var s1 := Do(s, WriteTag(io.writeTag), accepts);
    if io.writeTag {
      ReachableStep(s1, RenameTag(io.renameTag), accepts);
      if !io.renameTag { RemovalIsReachable(Do(s1, RenameTag(false), accepts), io.removeTag, accepts); }
    } else {
      RemovalIsReachable(s1, io.removeTag, accepts);
    }
  }

  /** Storing a body, failures and all, is a run of the steps above. */
  lemma StoredIsReachable(s: State, io: Io, accepts: Accepts)
    requires Reachable(s, accepts) && s.phase.WritingBody?
    ensures Reachable(s.(disk := Stored(s.disk, s.phase.body, io), phase := Idle), accepts)
  {
    ReachableStep(s, WriteBody(io.writeBody), accepts);
    var s1 := Do(s, WriteBody(io.writeBody), accepts);
    if !io.writeBody {
      RemovalIsReachable(s1, io.removeTag, accepts);
    } else {
      ReachableStep(s1, RenameBody(io.renameBody), accepts);
      var s2 := Do(s1, RenameBody(io.renameBody), accepts);
      if !io.renameBody || OwnTag(s.phase.body).None? {
        RemovalIsReachable(s2, io.removeTag, accepts);
      } else {
        TagStored(s2, io, accepts);
      }
    }
  }

  /**
   A page stored without failures is on disk whole, with its own ETag or with none; its ETag
   is sent with the next request, and then a 304 is right.
   */
  lemma StoredIsAskedFor(s: State, io: Io, accepts: Accepts) returns (t: State)
    requires Reachable(s, accepts) && s.phase.WritingBody? && s.host != [] && s.phase.body == Current(s.host)
    requires io == Io(true, true, true, true, true)
    ensures t.disk.body == Some(s.phase.body) && t.host == s.host && Reachable(t, accepts)
    ensures var tag := s.phase.body.tag;
            if tag.Some? && tag.value != "" then t.phase == Confirmed(|s.host| - 1) && ConfirmsCurrent(t)
            else t.phase == Asked(None)
  {
    StoredIsReachable(s, io, accepts);
    t := s.(disk := Stored(s.disk, s.phase.body, io), phase := Idle);
    ReachableStep(t, Ask, accepts);
    t := Do(t, Ask, accepts);
    if s.phase.body.tag.Some? && s.phase.body.tag.value != "" {
      ReachableStep(t, NotModified, accepts);
      t := Do(t, NotModified, accepts);
    }
  }
}
