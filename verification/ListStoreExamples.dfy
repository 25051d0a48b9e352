/** Runs in which a 304 confirms the wrong body: why the list store's theorems need their conditions. */
module ListStoreExamples {
  import opened Wrappers
  import opened Parse
  import opened Exactness
  import opened ListStore
  import opened ListFetch

  /** Lists of one subtree rule each, which hold a rule. */
  function ListOf(domain: string, tag: string): Page {
    Page("||" + domain + "^", Some(tag))
  }

  lemma ListsHoldRules(domain: string, tag: string, ipOf: IpOf)
    requires ValidDomain(domain) && AddressSyntax(ipOf)
    ensures HoldsRules(ipOf)(ListOf(domain, tag).text)
  {
    SubtreeLine(domain, ipOf);
  }

  lemma ListsDiffer(d: string, e: string)
    requires d != e
    ensures "||" + d + "^" != "||" + e + "^"
  {
    var a, b := "||" + d + "^", "||" + e + "^";
    assert a[2..|a| - 1] == d && b[2..|b| - 1] == e;
  }

  lemma TagsDiffer()
    ensures "a" != "b" && "a" != ""
  {
    assert "a"[0] != "b"[0];
  }

  /** With lists of one rule each: a host that goes back makes a 304 confirm the wrong list. */
  lemma GoingBackExample(d: string, e: string, ipOf: IpOf) returns (s: State)
    requires ValidDomain(d) && ValidDomain(e) && d != e && AddressSyntax(ipOf)
    ensures Reachable(s, HoldsRules(ipOf)) && s.phase.Confirmed? && s.others == []
    ensures s.host == [ListOf(d, "a"), ListOf(e, "b"), ListOf(d, "a")] && TagsIdentify(s.host)
    ensures !ConfirmsCurrent(s)
  {
    ListsHoldRules(d, "a", ipOf);
    ListsHoldRules(e, "b", ipOf);
    ListsDiffer(d, e);
    TagsDiffer();
    s := GoingBack(ListOf(d, "a"), ListOf(e, "b"), HoldsRules(ipOf));
  }

  /** With lists of one rule each: a page that holds a rule, stored over the list, is confirmed as the list. */
  lemma OtherPageExample(d: string, e: string, ipOf: IpOf) returns (s: State)
    requires ValidDomain(d) && ValidDomain(e) && d != e && AddressSyntax(ipOf)
    ensures Reachable(s, HoldsRules(ipOf)) && s.phase.Confirmed?
    ensures s.host == [ListOf(d, "a")] && NeverReturns(s.host) && s.others == [ListOf(e, "b").(tag := None)]
    ensures OthersApart(s) && !ConfirmsCurrent(s)
  {
    ListsHoldRules(d, "a", ipOf);
    ListsHoldRules(e, "b", ipOf);
    ListsDiffer(d, e);
    TagsDiffer();
    s := OtherPageConfirmed(ListOf(d, "a"), ListOf(e, "b").(tag := None), HoldsRules(ipOf));
  }
}
