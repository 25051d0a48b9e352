/** Fetching one list: the body read within its cap, the files replaced, and what is served when a fetch fails. */
module ListFetch {
  import opened Basics
  import opened Wrappers
  import opened Parse
  import opened Builder
  import opened ListStore

  const MAX_LIST_BYTES: nat := 64 * 1024 * 1024

  /** The verdict of counting a text's rules: it is stored if it holds one. */
  function HoldsRules(ipOf: IpOf): Accepts {
    (text: string) => ListOutcome(text, ipOf).rules != []
  }

  /** How bytes become text: valid UTF-8 as it is, any other byte as a replacement character. */
  type Decoder = string -> string

  lemma {:induction false} FlattenGrows(chunks: seq<string>, i: nat)
    requires i <= |chunks|
    ensures |Flatten(chunks[..i])| <= |Flatten(chunks)|
    decreases |chunks|
  {
    if i < |chunks| {
      FlattenGrows(chunks[..|chunks| - 1], i);
      assert chunks[..|chunks| - 1][..i] == chunks[..i];
    } else {
      assert chunks[..i] == chunks;
    }
  }

  lemma FlattenNext(chunks: seq<string>, i: nat)
    requires i < |chunks|
    ensures Flatten(chunks[..i + 1]) == Flatten(chunks[..i]) + chunks[i]
  {
    assert chunks[..i + 1] == chunks[..i] + [chunks[i]];
    FlattenStep(chunks[..i], chunks[i]);
  }

  /** The body arrives whole and within the cap, and says so if it gives its length. */
  predicate Whole(length: Option<nat>, chunks: seq<string>, broken: bool) {
    !broken && |Flatten(chunks)| <= MAX_LIST_BYTES && (length.Some? ==> length.value <= MAX_LIST_BYTES)
  }

  /** The body, chunk by chunk; given up as soon as it grows past the cap. */
  method ReadBody(length: Option<nat>, chunks: seq<string>, broken: bool) returns (text: Option<string>)
    ensures text.Some? <==> Whole(length, chunks, broken)
    ensures text.Some? ==> text.value == Flatten(chunks)
  {
    if length.Some? && length.value > MAX_LIST_BYTES {
      return None;
    }
    var body := "";
    var i := 0;
    while i < |chunks|
      invariant i <= |chunks| && body == Flatten(chunks[..i]) && |body| <= MAX_LIST_BYTES
    {
      FlattenNext(chunks, i);
      if |body| + |chunks[i]| > MAX_LIST_BYTES {
        FlattenGrows(chunks, i + 1);
        return None;
      }
      body := body + chunks[i];
      i := i + 1;
    }
    assert chunks[..i] == chunks;
    return if broken then None else Some(body);
  }

  class ListFiles {
    var body: Option<Body>
    var etag: Option<Tag>
    var temp: Temp

    ghost function View(): Disk
      reads this
    {
      Disk(body, etag, temp)
    }

    constructor ()
      ensures View() == EMPTY
    {
      body, etag, temp := None, None, NoTemp;
    }

    /** Write the temporary file, then rename it over the body. */
    method WriteBodyAtomic(b: Body, write: bool, rename: bool) returns (ok: bool)
      modifies this
      ensures ok == (write && rename)
      ensures View() == if ok then Disk(Some(b), old(etag), NoTemp) else old(View()).(temp := LeftOver(write, TempBody(b)))
    {
      if !write {
        temp := Garbage;
        return false;
      }
      temp := TempBody(b);
      if !rename {
        return false;
      }
      body, temp := Some(temp.body), NoTemp;
      return true;
    }

    method WriteTagAtomic(t: Tag, write: bool, rename: bool) returns (ok: bool)
      modifies this
      ensures ok == (write && rename)
      ensures View() == if ok then Disk(old(body), Some(t), NoTemp) else old(View()).(temp := LeftOver(write, TempTag(t)))
    {
      if !write {
        temp := Garbage;
        return false;
      }
      temp := TempTag(t);
      if !rename {
        return false;
      }
      etag, temp := Some(temp.tag), NoTemp;
      return true;
    }

    method RemoveEtag(ok: bool)
      modifies this
      ensures View() == WithoutTag(old(View()), ok)
    {
      if ok {
        etag := None;
      }
    }

    /** The body first, then its ETag; whatever cannot be vouched for loses its ETag. */
    method StoreDownloaded(b: Body, io: Io)
      modifies this
      ensures View() == Stored(old(View()), b, io)
    {
      var stored := WriteBodyAtomic(b, io.writeBody, io.renameBody);
      if stored {
        match OwnTag(b)
        case Some(t) =>
          var tagged := WriteTagAtomic(t, io.writeTag, io.renameTag);
          if !tagged {
            RemoveEtag(io.removeTag);
          }
        case None =>
          RemoveEtag(io.removeTag);
      } else {
        RemoveEtag(io.removeTag);
      }
    }

    /**
     A downloaded page replaces the stored copy only if a rule is found in it; it is used
     from memory even if it cannot be stored.
     */
    method FinishDownload(length: Option<nat>, chunks: seq<string>, broken: bool, decode: Decoder, ipOf: IpOf,
                          tag: Option<string>, from: nat, listed: bool, io: Io)
      returns (text: Option<string>)
      modifies this
      ensures text.Some? <==> Whole(length, chunks, broken) && ListOutcome(decode(Flatten(chunks)), ipOf).rules != []
      ensures text.Some? ==> text.value == decode(Flatten(chunks))
      ensures View() == if text.None? then old(View())
                        else Stored(old(View()), Body(text.value, tag, from, listed), io)
    {
      var body := ReadBody(length, chunks, broken);
      if body.None? {
        return None;
      }
      var rules, issues := CountRules(decode(body.value), ipOf);
      if rules == 0 {
        return None;
      }
      text := Some(decode(body.value));
      StoreDownloaded(Body(text.value, tag, from, listed), io);
    }
  }

  /**
   Over all runs, with the parser as it is: the stored body always holds a rule, and the
   ETag on disk did not come later than it.
   */
  lemma StoredBodyHoldsARule(trace: Trace, s: State, ipOf: IpOf)
    requires Leads(trace, s, HoldsRules(ipOf)) && s.disk.body.Some?
    ensures |ListOutcome(s.disk.body.value.text, ipOf).rules| > 0
    ensures s.disk.etag.Some? ==> s.disk.etag.value.from <= s.disk.body.value.from
  {
    StoreSurvivesCrashes(trace, s, HoldsRules(ipOf));
  }

  // ---- Where a list comes from ----

  datatype Origin =
    | LocalFile | DownloadedNow | StillCurrent
    | StoredOffline | SeedOffline | StoredAfterFetchFailure | SeedAfterFetchFailure

  datatype Acquired = Acquired(text: string, origin: Origin) | NoSource | Unreadable | Unavailable

  /** A file that may be absent, and may be there and unreadable. */
  datatype File = Missing | Locked | Holds(text: string)

  function ReadFile(f: File, origin: Origin): Acquired {
    if f.Holds? then Acquired(f.text, origin) else Unreadable
  }

  /**
   The text of one list. `fetched` is absent on an offline load; otherwise it is what the
   fetch gave, and `stored` the stored copy after it. The last good copy comes before the seed.
   */
  method AcquireList(hasUrl: bool, path: Option<File>, stored: File, fetched: Option<Option<Acquired>>)
    returns (r: Acquired)
    ensures !hasUrl ==>
              && (r.NoSource? <==> path.None?) && (r.Unreadable? <==> path.Some? && !path.value.Holds?)
              && (path.Some? && path.value.Holds? ==> r == Acquired(path.value.text, LocalFile))
    ensures hasUrl && fetched.Some? && fetched.value.Some? ==> r == fetched.value.value
    ensures hasUrl && (fetched.None? || fetched.value.None?) ==>
              && (r.Unavailable? <==> stored.Missing? && (path.None? || path.value.Missing?))
              && (stored.Holds? ==> r.Acquired? && r.text == stored.text
                                    && (r.origin.StoredOffline? || r.origin.StoredAfterFetchFailure?))
              && (stored.Missing? && path.Some? && path.value.Holds? ==>
                    r.Acquired? && r.text == path.value.text && (r.origin.SeedOffline? || r.origin.SeedAfterFetchFailure?))
              && (r.Unreadable? <==> stored.Locked? || (stored.Missing? && path.Some? && path.value.Locked?))
              && (r.Acquired? && (r.origin.StoredOffline? || r.origin.SeedOffline?) ==> fetched.None?)
  {
    if !hasUrl {
      return if path.None? then NoSource else ReadFile(path.value, LocalFile);
    }
    var hasSeed := path.Some? && !path.value.Missing?;
    match fetched
    case None =>
      if !stored.Missing? { return ReadFile(stored, StoredOffline); }
      if hasSeed { return ReadFile(path.value, SeedOffline); }
      return Unavailable;
    case Some(Some(acquired)) =>
      return acquired;
    case Some(None) =>
      if !stored.Missing? { return ReadFile(stored, StoredAfterFetchFailure); }
      if hasSeed { return ReadFile(path.value, SeedAfterFetchFailure); }
      return Unavailable;
  }
}
