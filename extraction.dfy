/**
 * The per-page extraction pipeline of DeeplinkController: alternate-link
 * hrefs, then view-action targets from JSON-LD scripts, filtered to the
 * android-app:// scheme and de-duplicated.
 */
module Extraction {
  import opened Wrappers
  import opened Text
  import opened Enumerable
  import opened Models
  import opened Html

  /** The prefix every returned link starts with, compared case-insensitively. */
  const DeepLinkScheme: string := "android-app://"

  /** The exceptions that abort the processing of one page. */
  datatype Fault =
    | ScriptNotDecoded  // a qualifying script whose text deserialises to null, or fails to deserialise
    | NullCandidate     // a null view-action target reaching StartsWith

  // ---------------------------------------------------------------------------
  // Alternate links

  /** The trimmed rel attribute equals "alternate", ignoring case (see AlternateRelIgnoresCase). */
  predicate IsAlternateLinkElement(element: Element) {
    FoldCase(Trim(GetAttributeValue(element, "rel", ""))) == "alternate"
  }

  lemma AlternateRelIgnoresCase(element: Element)
    ensures IsAlternateLinkElement(element)
        <==> EqualsIgnoreCase(Trim(GetAttributeValue(element, "rel", "")), "alternate")
  {
    EqualsFolded(Trim(GetAttributeValue(element, "rel", "")), "alternate");
  }

  function TrimmedHref(element: Element): string {
    Trim(GetAttributeValue(element, "href", ""))
  }

  predicate IsNonEmpty(s: string) {
    |s| > 0
  }

  /** The trimmed, non-empty hrefs of the alternate link elements, in document order. */
  function GetAlternateLinksForHtmlDocument(page: Page): (links: seq<string>)
    ensures forall x :: x in links ==> x != [] && !IsWhiteSpace(x[0]) && !IsWhiteSpace(x[|x| - 1])
  {
    Where(IsNonEmpty, Select(TrimmedHref, Where(IsAlternateLinkElement, Descendants(page, "link"))))
  }

  /** An href is collected exactly when some alternate link element has it as its trimmed, non-empty href. */
  lemma AlternateLinkCollected(page: Page, x: string)
    ensures x in GetAlternateLinksForHtmlDocument(page)
        <==> x != [] && exists e :: e in page && e.name == "link" && IsAlternateLinkElement(e) && TrimmedHref(e) == x
  {
    SelectWhereMembership(TrimmedHref, IsAlternateLinkElement, Descendants(page, "link"), x);
  }

  /** The hrefs of a document split in two are those of the first part followed by those of the second. */
  lemma AlternateLinksInDocumentOrder(a: Page, b: Page)
    ensures GetAlternateLinksForHtmlDocument(a + b) == GetAlternateLinksForHtmlDocument(a) + GetAlternateLinksForHtmlDocument(b)
  {
    DescendantsAppend(a, b, "link");
    var la, lb := Where(IsAlternateLinkElement, Descendants(a, "link")), Where(IsAlternateLinkElement, Descendants(b, "link"));
    WhereAppend(IsAlternateLinkElement, Descendants(a, "link"), Descendants(b, "link"));
    SelectAppend(TrimmedHref, la, lb);
    WhereAppend(IsNonEmpty, Select(TrimmedHref, la), Select(TrimmedHref, lb));
  }

  // ---------------------------------------------------------------------------
  // View actions

  /** The trimmed type attribute equals "application/ld+json", ignoring case (see ScriptTypeIgnoresCase). */
  predicate IsViewActionScriptElement(element: Element) {
    FoldCase(Trim(GetAttributeValue(element, "type", ""))) == "application/ld+json"
  }

  lemma ScriptTypeIgnoresCase(element: Element)
    ensures IsViewActionScriptElement(element)
        <==> EqualsIgnoreCase(Trim(GetAttributeValue(element, "type", "")), "application/ld+json")
  {
    EqualsFolded(Trim(GetAttributeValue(element, "type", "")), "application/ld+json");
  }

  /** "@type" is non-null and equals "ViewAction", ignoring case (see ActionTypeIgnoresCase). */
  predicate IsViewAction(action: PotentialAction) {
    action.actionType.Some? && FoldCase(action.actionType.value) == "viewaction"
  }

  lemma ActionTypeIgnoresCase(action: PotentialAction)
    ensures IsViewAction(action) <==> action.actionType.Some? && EqualsIgnoreCase(action.actionType.value, "ViewAction")
  {
    if action.actionType.Some? {
      EqualsIgnoreCaseFolds(action.actionType.value, "ViewAction");
      assert FoldCase("ViewAction") == "viewaction";
    }
  }

  /**
   * The target of the script's view action, untrimmed; None (C#'s null) when
   * the block has no potential action, one of another type, or no target.
   */
  function GetViewActionTargetFromScript(element: Element): (target: Result<Option<string>, Fault>)
    ensures target.Failure? <==> element.innerJson.None?
    ensures target.Failure? ==> target.error == ScriptNotDecoded
  {
    match element.innerJson
    case None => Failure(ScriptNotDecoded)
    case Some(schema) =>
      if schema.potentialAction.Some? && IsViewAction(schema.potentialAction.value)
      then Success(schema.potentialAction.value.target)
      else Success(None)
  }

  /** The ld+json script elements of the page, in document order (see ViewActionScriptsInDocumentOrder). */
  function ViewActionScripts(page: Page): (scripts: seq<Element>)
    ensures forall e :: e in scripts <==> e in page && IsLdJsonScript(e)
  {
    Where(IsViewActionScriptElement, Descendants(page, "script"))
  }

  /** One entry per ld+json script, in document order; the first script that does not decode aborts. */
  function GetViewActionsForHtmlDocument(page: Page): (targets: Result<seq<Option<string>>, Fault>)
    ensures targets.Success? ==> |targets.value| == |ViewActionScripts(page)|
    ensures targets.Success? ==> forall i :: 0 <= i < |targets.value| ==>
              GetViewActionTargetFromScript(ViewActionScripts(page)[i]) == Success(targets.value[i])
    ensures targets.Failure? ==> targets.error == ScriptNotDecoded
  {
    SelectOrFail(GetViewActionTargetFromScript, ViewActionScripts(page))
  }

  /** The qualifying scripts of a split document are those of the first part followed by those of the second. */
  lemma ViewActionScriptsInDocumentOrder(a: Page, b: Page)
    ensures ViewActionScripts(a + b) == ViewActionScripts(a) + ViewActionScripts(b)
  {
    DescendantsAppend(a, b, "script");
    WhereAppend(IsViewActionScriptElement, Descendants(a, "script"), Descendants(b, "script"));
  }

  /** A script element that the view-action strategy reads. */
  predicate IsLdJsonScript(e: Element) {
    e.name == "script" && IsViewActionScriptElement(e)
  }

  /** The decoded block is a ViewAction with a non-null target. */
  predicate DeclaresViewActionTarget(e: Element) {
    e.innerJson.Some? && e.innerJson.value.potentialAction.Some?
    && IsViewAction(e.innerJson.value.potentialAction.value)
    && e.innerJson.value.potentialAction.value.target.Some?
  }

  /** Decoding fails exactly when some ld+json script does not decode. */
  lemma ViewActionsFailOnUndecodedScript(page: Page)
    ensures GetViewActionsForHtmlDocument(page).Failure?
        <==> exists e :: e in page && IsLdJsonScript(e) && e.innerJson.None?
  {
    SelectOrFailFails(GetViewActionTargetFromScript, ViewActionScripts(page));
  }

  /**
   * When the scripts decode, a string t is among the targets exactly when an
   * ld+json script declares a ViewAction with target t (kept untrimmed), and a
   * null is among them exactly when some ld+json script declares no such target.
   */
  lemma ViewActionTargetCollected(page: Page, t: string)
    requires GetViewActionsForHtmlDocument(page).Success?
    ensures Some(t) in GetViewActionsForHtmlDocument(page).value
        <==> exists e :: e in page && IsLdJsonScript(e) && DeclaresViewActionTarget(e)
                         && e.innerJson.value.potentialAction.value.target == Some(t)
    ensures None in GetViewActionsForHtmlDocument(page).value
        <==> exists e :: e in page && IsLdJsonScript(e) && !DeclaresViewActionTarget(e)
  {
    var scripts := ViewActionScripts(page);
    SelectOrFailMembership(GetViewActionTargetFromScript, scripts, Some(t));
    SelectOrFailMembership(GetViewActionTargetFromScript, scripts, None);
    SelectOrFailFails(GetViewActionTargetFromScript, scripts);
    forall e | e in scripts
      ensures GetViewActionTargetFromScript(e) == Success(Some(t))
              <==> DeclaresViewActionTarget(e) && e.innerJson.value.potentialAction.value.target == Some(t)
      ensures GetViewActionTargetFromScript(e) == Success(None) <==> !DeclaresViewActionTarget(e)
    {
      TargetFromScript(e);
    }
  }

  /** What one decoded script contributes: its ViewAction's target, or null. */
  lemma TargetFromScript(e: Element)
    requires e.innerJson.Some?
    ensures GetViewActionTargetFromScript(e).Success?
    ensures GetViewActionTargetFromScript(e).value.Some? <==> DeclaresViewActionTarget(e)
    ensures DeclaresViewActionTarget(e)
            ==> GetViewActionTargetFromScript(e).value == e.innerJson.value.potentialAction.value.target
  {
  }

  // ---------------------------------------------------------------------------
  // Merge, filter, de-duplicate

  /** x.StartsWith("android-app://", StringComparison.OrdinalIgnoreCase) (see DeepLinkIgnoresCase). */
  predicate IsDeepLink(x: string) {
    |DeepLinkScheme| <= |x| && FoldCase(x[..|DeepLinkScheme|]) == DeepLinkScheme
  }

  lemma DeepLinkIgnoresCase(x: string)
    ensures IsDeepLink(x) <==> StartsWithIgnoreCase(x, DeepLinkScheme)
  {
    if |DeepLinkScheme| <= |x| {
      EqualsFolded(x[..|DeepLinkScheme|], DeepLinkScheme);
    }
  }

  /** The strings of a candidate list known to hold no null. */
  function Values(candidates: seq<Option<string>>): (values: seq<string>)
    requires None !in candidates
    ensures |values| == |candidates|
    ensures forall i :: 0 <= i < |candidates| ==> candidates[i].Some? && values[i] == candidates[i].value
  {
    assert forall i :: 0 <= i < |candidates| ==> candidates[i] in candidates;
    seq(|candidates|, i requires 0 <= i < |candidates| => candidates[i].value)
  }

  lemma ValuesMembership(candidates: seq<Option<string>>, x: string)
    requires None !in candidates
    ensures x in Values(candidates) <==> Some(x) in candidates
  {
    var values := Values(candidates);
    if Some(x) in candidates {
      var i :| 0 <= i < |candidates| && candidates[i] == Some(x);
      assert values[i] == x;
    }
    if x in values {
      var i :| 0 <= i < |values| && values[i] == x;
      assert candidates[i] == Some(x);
    }
  }

  /**
   * GetAlternateLinksForUrlAsync once the page is parsed: the hrefs followed by the view-action targets, filtered to
   * the deep-link scheme and de-duplicated. A null target makes the filter's
   * StartsWith throw, so the page yields a fault instead of links.
   */
  function ExtractDeepLinks(page: Page): (links: Result<seq<string>, Fault>)
    ensures links.Success? ==> NoDuplicates(links.value)
    ensures links.Success? ==> forall x :: x in links.value ==> IsDeepLink(x)
  {
    var alternates := GetAlternateLinksForHtmlDocument(page);
    match GetViewActionsForHtmlDocument(page)
    case Failure(f) => Failure(f)
    case Success(viewActions) =>
      if None in viewActions then Failure(NullCandidate)
      else Success(Distinct(Where(IsDeepLink, alternates + Values(viewActions))))
  }

  /** GetAlternateLinksForUrlAsync after the fetch: no page gives no links and no parsing. */
  function LinksForFetchedPage(html: Option<Page>): (links: Result<seq<string>, Fault>)
    ensures html.None? ==> links == Success([])
  {
    match html
    case None => Success([])
    case Some(page) => ExtractDeepLinks(page)
  }

  /**
   * A page faults exactly when one of its ld+json scripts does not decode to a
   * ViewAction with a target; undecodable scripts are reported first.
   */
  lemma ExtractDeepLinksFaults(page: Page)
    ensures ExtractDeepLinks(page).Failure?
        <==> exists e :: e in page && IsLdJsonScript(e) && !DeclaresViewActionTarget(e)
    ensures ExtractDeepLinks(page).Failure? ==>
              (ExtractDeepLinks(page).error == ScriptNotDecoded
               <==> exists e :: e in page && IsLdJsonScript(e) && e.innerJson.None?)
  {
    ViewActionsFailOnUndecodedScript(page);
    if GetViewActionsForHtmlDocument(page).Success? {
      ViewActionTargetCollected(page, "");
      assert forall e :: e in page && IsLdJsonScript(e) ==> e.innerJson.Some?;
    } else {
      var e :| e in page && IsLdJsonScript(e) && e.innerJson.None?;
      assert !DeclaresViewActionTarget(e);
    }
  }

  /** A link is returned exactly when it has the scheme and is a collected href or view-action target. */
  lemma ExtractDeepLinksMembership(page: Page, x: string)
    requires ExtractDeepLinks(page).Success?
    ensures GetViewActionsForHtmlDocument(page).Success?
    ensures x in ExtractDeepLinks(page).value
        <==> IsDeepLink(x) && (x in GetAlternateLinksForHtmlDocument(page)
                               || Some(x) in GetViewActionsForHtmlDocument(page).value)
  {
    ValuesMembership(GetViewActionsForHtmlDocument(page).value, x);
  }

  /**
   * The surviving hrefs come first, de-duplicated in document order; after
   * them come only surviving view-action targets that are not also hrefs.
   */
  lemma ExtractDeepLinksAlternatesFirst(page: Page)
    requires ExtractDeepLinks(page).Success?
    ensures GetViewActionsForHtmlDocument(page).Success? && None !in GetViewActionsForHtmlDocument(page).value
    ensures var links := ExtractDeepLinks(page).value;
            var hrefs := Where(IsDeepLink, GetAlternateLinksForHtmlDocument(page));
            var targets := Where(IsDeepLink, Values(GetViewActionsForHtmlDocument(page).value));
            && links == Distinct(hrefs + targets)
            && Distinct(hrefs) <= links
            && forall i :: |Distinct(hrefs)| <= i < |links| ==> links[i] in targets && links[i] !in hrefs
  {
    var alternates := GetAlternateLinksForHtmlDocument(page);
    var values := Values(GetViewActionsForHtmlDocument(page).value);
    WhereAppend(IsDeepLink, alternates, values);
    DistinctOfAppend(Where(IsDeepLink, alternates), Where(IsDeepLink, values));
  }

  /**
   * The links keep the order of their first occurrences in the concatenation
   * of hrefs and view-action targets.
   */
  lemma ExtractDeepLinksFirstOccurrenceOrder(page: Page)
    requires ExtractDeepLinks(page).Success?
    ensures GetViewActionsForHtmlDocument(page).Success? && None !in GetViewActionsForHtmlDocument(page).value
    ensures var links := ExtractDeepLinks(page).value;
            var candidates := GetAlternateLinksForHtmlDocument(page) + Values(GetViewActionsForHtmlDocument(page).value);
            && (forall i :: 0 <= i < |links| ==> links[i] in candidates)
            && forall i, j :: 0 <= i < j < |links| ==> IndexOf(candidates, links[i]) < IndexOf(candidates, links[j])
  {
    var candidates := GetAlternateLinksForHtmlDocument(page) + Values(GetViewActionsForHtmlDocument(page).value);
    DistinctWhereFirstOccurrenceOrder(IsDeepLink, candidates);
  }
}
