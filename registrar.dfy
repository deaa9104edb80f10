/**
 * The checks the library registrar runs over what it fetched: contact
 * links that must be mailto: URIs, the identity checks on an Authentication
 * For OPDS document, the cross-check of the OPDS root document, and how a
 * re-registration reports its outcome
 * (library_registration_protocol/registrar.py). The HTTP fetches, the
 * feed parsers and the logo conversion are not part of this model; what
 * they produce enters as parameters.
 */
module Registrar {
  import opened Wrappers
  import opened Text
  import opened ProblemDetails
  import AuthenticationDocument

  type Link = AuthenticationDocument.Link

  const MAILTO := "mailto:"
  const NO_EMAIL_MESSAGE := "No email address was provided"

  /** A contact URI `_required_email_address` accepts: non-empty and a mailto: URI. */
  predicate IsMailto(uri: Option<string>)
  {
    Truthy(uri) && StartsWith(uri.value, MAILTO)
  }

  /** The shared problem `onError` made specific, with the caller's title put in its place. */
  function Titled(onError: ProblemDetail, detail: string, title: string): (r: ProblemDetail)
    ensures r.uri == onError.uri && r.statusCode == onError.statusCode
    ensures r.title == Some(title) && r.detail == Some(detail)
    ensures r.instance.None? && r.debugMessage.None?
  {
    Detailed(onError, Some(detail), None, None, None, None).(title := Some(title))
  }

  /**
   * `_required_email_address`: the URI itself when it is a mailto: URI;
   * otherwise INVALID_CONTACT_URI made specific (no address at all, or an
   * address of another scheme) under the caller's title. The shared
   * problem `invalidContactUri` is a value here, so it cannot be altered.
   */
  function RequiredEmailAddress(invalidContactUri: ProblemDetail, uri: Option<string>, title: string)
    : (r: Result<string, ProblemDetail>)
    ensures r.Ok? <==> IsMailto(uri)
    ensures r.Ok? ==> Some(r.value) == uri && StartsWith(r.value, MAILTO)
    ensures !Truthy(uri) ==> r == Err(Titled(invalidContactUri, NO_EMAIL_MESSAGE, title))
    ensures Truthy(uri) && !IsMailto(uri) ==>
      r == Err(Titled(invalidContactUri, "URI must start with 'mailto:' (got: " + uri.value + ")", title))
    ensures r.Err? ==> r.error.uri == invalidContactUri.uri && r.error.title == Some(title)
  {
    if !Truthy(uri) then Err(Titled(invalidContactUri, NO_EMAIL_MESSAGE, title))
    else if !StartsWith(uri.value, MAILTO) then
      Err(Titled(invalidContactUri, "URI must start with 'mailto:' (got: " + uri.value + ")", title))
    else Ok(uri.value)
  }

  /** The hrefs, in order, of the links with relation `rel` whose href is a mailto: URI. */
  function MailtoHrefs(links: seq<Link>, rel: string): (r: seq<string>)
    ensures |r| <= |links|
    decreases |links|
  {
    if |links| == 0 then []
    else
      var last := links[|links| - 1];
      MailtoHrefs(links[..|links| - 1], rel) + (if last.rel == Some(rel) && IsMailto(last.href) then [last.href.value] else [])
  }

  /** An address is kept exactly when some link with the relation carries it as a valid mailto: href. */
  lemma {:induction false} MailtoHrefsExact(links: seq<Link>, rel: string, uri: string)
    ensures uri in MailtoHrefs(links, rel)
        <==> exists l | l in links :: l.rel == Some(rel) && l.href == Some(uri) && IsMailto(l.href)
    decreases |links|
  {
    if |links| > 0 {
      var front := links[..|links| - 1];
      var last := links[|links| - 1];
      MailtoHrefsExact(front, rel, uri);
      assert links == front + [last];
      if exists l | l in front :: l.rel == Some(rel) && l.href == Some(uri) && IsMailto(l.href) {
        var l :| l in front && l.rel == Some(rel) && l.href == Some(uri) && IsMailto(l.href);
        assert l in links;
      }
    }
  }

  /** Every address kept starts with "mailto:", and links of any other relation never contribute. */
  lemma {:induction false} MailtoHrefsIgnoreOtherRels(links: seq<Link>, other: seq<Link>, rel: string)
    requires forall l | l in other :: l.rel != Some(rel)
    ensures MailtoHrefs(links + other, rel) == MailtoHrefs(links, rel)
    ensures forall u | u in MailtoHrefs(links, rel) :: StartsWith(u, MAILTO)
    decreases |other|, |links|
  {
    if |other| > 0 {
      var front := other[..|other| - 1];
      assert links + other == (links + front) + [other[|other| - 1]];
      assert (links + other)[..|links + other| - 1] == links + front;
      MailtoHrefsIgnoreOtherRels(links, front, rel);
    } else {
      assert links + other == links;
      if |links| > 0 {
        MailtoHrefsIgnoreOtherRels(links[..|links| - 1], [], rel);
        assert links[..|links| - 1] + [] == links[..|links| - 1];
      }
    }
  }

  /** What `_locate_email_addresses` promises: the addresses found, or a problem naming the relation. */
  function LocatedAddresses(invalidContactUri: ProblemDetail, links: seq<Link>, rel: string, title: string)
    : Result<seq<string>, ProblemDetail>
  {
    if |MailtoHrefs(links, rel)| == 0 then
      Err(Titled(invalidContactUri, "No valid mailto: links found with rel=" + rel, title))
    else Ok(MailtoHrefs(links, rel))
  }

  /**
   * `_locate_email_addresses`: collects, in order, the href of every link
   * with the relation that `_required_email_address` accepts; with none
   * collected, a problem under the caller's title.
   */
  method LocateEmailAddresses(invalidContactUri: ProblemDetail, links: seq<Link>, rel: string, title: string)
    returns (r: Result<seq<string>, ProblemDetail>)
    ensures r == LocatedAddresses(invalidContactUri, links, rel, title)
    ensures r.Ok? ==> |r.value| > 0 && forall u | u in r.value :: StartsWith(u, MAILTO)
    ensures r.Err? ==> r.error.title == Some(title) && r.error.uri == invalidContactUri.uri
  {
    var candidates: seq<string> := [];
    var i := 0;
    while i < |links|
      invariant 0 <= i <= |links|
      invariant candidates == MailtoHrefs(links[..i], rel)
      invariant forall u | u in candidates :: StartsWith(u, MAILTO)
    {
      assert links[..i + 1][..i] == links[..i];
      var link := links[i];
      if link.rel != Some(rel) {
        i := i + 1;
        continue;
      }
      var value := RequiredEmailAddress(invalidContactUri, link.href, title);
      if value.Ok? {
        candidates := candidates + [value.value];
      }
      i := i + 1;
    }
    assert links[..i] == links;
    if |candidates| == 0 {
      return Err(Titled(invalidContactUri, "No valid mailto: links found with rel=" + rel, title));
    }
    return Ok(candidates);
  }

  const HELP_REL := "help"
  const COPYRIGHT_DESIGNATED_AGENT_REL := "http://librarysimplified.org/rel/designated-agent/copyright"
  const HELP_TITLE := "Invalid or missing patron support email address"
  const COPYRIGHT_TITLE := "Invalid or missing copyright designated agent email address"

  /**
   * The contact check of `register`: a patron-support address and then a
   * copyright-agent address must be found; the first relation without one
   * ends registration with its problem.
   */
  function ContactLinks(invalidContactUri: ProblemDetail, links: seq<Link>)
    : (r: Result<seq<(string, seq<string>)>, ProblemDetail>)
    ensures r.Ok? <==> |MailtoHrefs(links, HELP_REL)| > 0 && |MailtoHrefs(links, COPYRIGHT_DESIGNATED_AGENT_REL)| > 0
    ensures r.Ok? ==> r.value == [(HELP_REL, MailtoHrefs(links, HELP_REL)),
                                  (COPYRIGHT_DESIGNATED_AGENT_REL, MailtoHrefs(links, COPYRIGHT_DESIGNATED_AGENT_REL))]
    ensures r.Err? && |MailtoHrefs(links, HELP_REL)| == 0 ==> r.error.title == Some(HELP_TITLE)
    ensures r.Err? && |MailtoHrefs(links, HELP_REL)| > 0 ==> r.error.title == Some(COPYRIGHT_TITLE)
  {
    match LocatedAddresses(invalidContactUri, links, HELP_REL, HELP_TITLE)
    case Err(p) => Err(p)
    case Ok(help) =>
      match LocatedAddresses(invalidContactUri, links, COPYRIGHT_DESIGNATED_AGENT_REL, COPYRIGHT_TITLE)
      case Err(p) => Err(p)
      case Ok(agent) => Ok([(HELP_REL, help), (COPYRIGHT_DESIGNATED_AGENT_REL, agent)])
  }

  // ---------------------------------------------------------------------
  // The document checks of `register`
  // ---------------------------------------------------------------------

  /** What the checks read from a parsed authentication document. */
  datatype DocumentFields = DocumentFields(id: Option<string>, title: Option<string>, root: Option<Link>)

  const MISSING_ID := "The OPDS authentication document is missing an id."
  const MISSING_TITLE := "The OPDS authentication document is missing a title."
  const MISSING_START := "The OPDS authentication document is missing a 'start' link to the root OPDS feed."

  /** `str` of an optional string, as string interpolation prints it. */
  function Shown(s: Option<string>): string
  {
    if s.Some? then s.value else "None"
  }

  function IdMismatch(id: Option<string>, url: string): string
  {
    "The OPDS authentication document's id (" + Shown(id) + ") doesn't match its url (" + url + ")."
  }

  /** The four checks, in the order they run: each is a failing condition and its message. */
  function DocumentChecks(doc: DocumentFields, url: string): (r: seq<(bool, string)>)
    ensures |r| == 4
  {
    [(!Truthy(doc.id), MISSING_ID),
     (!Truthy(doc.title), MISSING_TITLE),
     (doc.root.None?, MISSING_START),
     (doc.id != Some(url), IdMismatch(doc.id, url))]
  }

  /** The message of the last failing check, if any fails. */
  function LastFailure(checks: seq<(bool, string)>): (r: Option<string>)
    ensures r.None? <==> forall i | 0 <= i < |checks| :: !checks[i].0
    ensures r.Some? ==> exists i | 0 <= i < |checks| :: checks[i].0 && checks[i].1 == r.value
                                     && forall j | i < j < |checks| :: !checks[j].0
  {
    if |checks| == 0 then None
    else if checks[|checks| - 1].0 then Some(checks[|checks| - 1].1)
    else LastFailure(checks[..|checks| - 1])
  }

  lemma LastOfFour(c: seq<(bool, string)>)
    requires |c| == 4
    ensures LastFailure(c) == if c[3].0 then Some(c[3].1) else if c[2].0 then Some(c[2].1)
                              else if c[1].0 then Some(c[1].1) else if c[0].0 then Some(c[0].1) else None
  {
    assert c[..3][..2][..1][..0] == [];
    assert c[..3][..2][..1] == [c[0]];
    assert c[..3][..2] == [c[0], c[1]];
    assert c[..3] == [c[0], c[1], c[2]];
  }

  /**
   * The checks of `register` on a fetched document, each overwriting the
   * failure detail of the one before: a missing id, a missing title, a
   * missing start link, and an id other than the URL the document was
   * found at. Any failure is INVALID_INTEGRATION_DOCUMENT with the last
   * failing check's message; otherwise the start link's href.
   */
  method CheckDocument(invalidIntegrationDocument: ProblemDetail, doc: DocumentFields, url: string)
    returns (r: Result<Option<string>, ProblemDetail>)
    ensures var f := LastFailure(DocumentChecks(doc, url));
      && (f.Some? ==> r == Err(Detailed(invalidIntegrationDocument, f, None, None, None, None)))
      && (f.None? ==> doc.root.Some? && r == Ok(doc.root.value.href))
  {
    var failureDetail: Option<string> := None;
    var opdsUrl: Option<string> := None;
    if !Truthy(doc.id) {
      failureDetail := Some(MISSING_ID);
    }
    if !Truthy(doc.title) {
      failureDetail := Some(MISSING_TITLE);
    }
    if doc.root.Some? {
      opdsUrl := doc.root.value.href;
    } else {
      failureDetail := Some(MISSING_START);
    }
    if doc.id != Some(url) {
      failureDetail := Some(IdMismatch(doc.id, url));
    }
    LastOfFour(DocumentChecks(doc, url));
    if failureDetail.Some? {
      return Err(Detailed(invalidIntegrationDocument, failureDetail, None, None, None, None));
    }
    return Ok(opdsUrl);
  }

  /**
   * The document passes exactly when it has an id, a title and a start
   * link and its id is the URL it was fetched from; a document whose id
   * differs from that URL (a missing id included) is always reported as a
   * mismatch, since that check runs last.
   */
  lemma DocumentVerdict(doc: DocumentFields, url: string)
    ensures LastFailure(DocumentChecks(doc, url)).None?
        <==> url != "" && doc.id == Some(url) && Truthy(doc.title) && doc.root.Some?
    ensures doc.id != Some(url) ==> LastFailure(DocumentChecks(doc, url)) == Some(IdMismatch(doc.id, url))
    ensures doc.id == Some(url) && url != "" && doc.root.None? ==> LastFailure(DocumentChecks(doc, url)) == Some(MISSING_START)
    ensures doc.id == Some(url) && url != "" && doc.root.Some? && !Truthy(doc.title)
            ==> LastFailure(DocumentChecks(doc, url)) == Some(MISSING_TITLE)
  {
    LastOfFour(DocumentChecks(doc, url));
  }

  // ---------------------------------------------------------------------
  // The cross-check of the OPDS root document
  // ---------------------------------------------------------------------

  const AUTHENTICATION_DOCUMENT_MEDIA_TYPE := "application/vnd.opds.authentication.v1.0+json"
  const OPDS_MEDIA_TYPE := "application/opds+json"
  const OPDS_1_MEDIA_TYPE := "application/atom+xml;profile=opds-catalog;kind=acquisition"

  /**
   * `opds_response_links_to_auth_document`: whether the authentication
   * document's URL is among the links a response declares; a response too
   * malformed to read links from (`links` is an error) links to nothing.
   */
  function LinksToAuthDocument(links: Result<seq<string>, string>, authUrl: string): (r: bool)
    ensures r ==> links.Ok?
    ensures links.Err? ==> !r
    ensures links.Ok? ==> (r <==> exists i | 0 <= i < |links.value| :: links.value[i] == authUrl)
  {
    links.Ok? && authUrl in links.value
  }

  /**
   * The failure detail of the root-document check in `register`: a 401
   * answer must itself be the authentication document and link back to
   * it; any other answer must be an OPDS feed that links back.
   */
  function RootFailure(status: int, contentType: Option<string>, links: Result<seq<string>, string>,
                       opdsUrl: string, authUrl: string): (r: Option<string>)
    // A media type that does not fit the status fails whatever the links say.
    ensures (if status == 401 then contentType != Some(AUTHENTICATION_DOCUMENT_MEDIA_TYPE)
             else contentType !in {Some(OPDS_MEDIA_TYPE), Some(OPDS_1_MEDIA_TYPE)}) ==> r.Some?
    ensures !LinksToAuthDocument(links, authUrl) ==> r.Some?
  {
    if status == 401 then
      if contentType != Some(AUTHENTICATION_DOCUMENT_MEDIA_TYPE) then
        Some("401 response at " + opdsUrl + " did not yield an Authentication For OPDS document")
      else if !LinksToAuthDocument(links, authUrl) then
        Some("Authentication For OPDS document guarding " + opdsUrl + " does not match the one at " + authUrl)
      else None
    else if contentType != Some(OPDS_MEDIA_TYPE) && contentType != Some(OPDS_1_MEDIA_TYPE) then
      Some("Supposed root document at " + opdsUrl + " is not an OPDS document")
    else if !LinksToAuthDocument(links, authUrl) then
      Some("OPDS root document at " + opdsUrl + " does not link back to authentication document " + authUrl)
    else None
  }

  /** Every failure detail names the root document's URL. */
  lemma {:induction false} RootFailureNamesUrl(status: int, contentType: Option<string>, links: Result<seq<string>, string>,
                                               opdsUrl: string, authUrl: string)
    ensures var r := RootFailure(status, contentType, links, opdsUrl, authUrl);
      r.Some? ==> Contains(r.value, opdsUrl)
  {
    var r := RootFailure(status, contentType, links, opdsUrl, authUrl);
    if r.Some? {
      var head := if status == 401 then
          if contentType != Some(AUTHENTICATION_DOCUMENT_MEDIA_TYPE) then "401 response at "
          else "Authentication For OPDS document guarding "
        else if contentType != Some(OPDS_MEDIA_TYPE) && contentType != Some(OPDS_1_MEDIA_TYPE) then "Supposed root document at "
        else "OPDS root document at ";
      assert r.value[..|head|] == head;
      assert StartsWith(r.value[|head|..], opdsUrl);
    }
  }

  /** The root document is accepted exactly when its type fits its status and it names the authentication document. */
  lemma RootAccepted(status: int, contentType: Option<string>, links: Result<seq<string>, string>,
                     opdsUrl: string, authUrl: string)
    ensures RootFailure(status, contentType, links, opdsUrl, authUrl).None?
        <==> && links.Ok? && authUrl in links.value
             && (if status == 401 then contentType == Some(AUTHENTICATION_DOCUMENT_MEDIA_TYPE)
                 else contentType in {Some(OPDS_MEDIA_TYPE), Some(OPDS_1_MEDIA_TYPE)})
  {
  }

  // ---------------------------------------------------------------------
  // Re-registration
  // ---------------------------------------------------------------------

  /** What `register` returns: a problem, or the document and the contact links to create. */
  datatype Registration<D> = Problem(problem: ProblemDetail) | Registered(document: D, hyperlinks: seq<(string, seq<string>)>)

  /**
   * `reregister`: runs `register` with the library's current stage and
   * passes on its problem; any other outcome is reported as nothing.
   */
  function Reregister<S, D>(register: S -> Registration<D>, stage: S): (r: Option<ProblemDetail>)
    ensures r.Some? <==> register(stage).Problem?
    ensures r.Some? ==> r.value == register(stage).problem
  {
    match register(stage)
    case Problem(p) => Some(p)
    case Registered(_, _) => None
  }
}
