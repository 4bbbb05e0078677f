/** The policy page renderer shared by the privacy and terms pages: it picks a policy name and
    a language, loads the policy document with an English fallback, normalises it and replaces
    the children of the policy root element with the rendered document. */
module Policy {
  import opened Text
  import opened Js

  // ---------------------------------------------------------------- data model

  datatype Section = Section(heading: string, paragraphs: seq<string>, bullets: seq<string>, notes: seq<string>)

  datatype Contact = Contact(labelText: string, mailto: string)

  /** A policy document after normalisation: every field present. */
  datatype Document = Document(
    version: string,
    effectiveDate: string,
    title: string,
    intro: seq<string>,
    sections: seq<Section>,
    contact: Option<Contact>)

  /** The elements the renderer creates, with the text they carry. */
  datatype Node =
    | H1(text: string)
    | Meta(text: string)                        // <p class="policy-meta">
    | Rule                                      // <hr aria-hidden="true">
    | P(text: string)
    | MutedP(text: string)                      // a note: <p> in the muted colour
    | H2(text: string)
    | Ul(items: seq<string>)                    // <ul> with one <li> per item
    | SectionBox(children: seq<Node>)           // <section class="policy-section">
    | EmailLine(linkText: string, href: string) // <p>For questions, email: <a href>linkText</a></p>
    | Container(children: seq<Node>)            // the <div> that becomes the root's only child
    | Unavailable(error: Failure)               // the "Unable to load policy" card with the error text

  /** The element with id `policy-root`. */
  class PolicyRoot {
    var children: seq<Node>

    constructor ()
      ensures children == []
    {
      children := [];
    }
  }

  // ---------------------------------------------------------------- name, language, URLs

  /** The lower-cased last segment of the page path. */
  function FileName(pathname: string): (r: string)
    ensures |r| <= |pathname| && '/' !in r
    ensures forall i :: 0 <= i < |r| ==> !('A' <= r[i] <= 'Z')
  {
    ToLower(LastSegment(pathname))
  }

  /** `inferPolicyFromPath()`: "terms" when the lower-cased last path segment includes "terms",
      else "privacy" when it includes "privacy", else nothing (null). */
  function InferPolicyFromPath(pathname: string): (r: Option<string>)
    ensures r.Some? ==> r.value == "terms" || r.value == "privacy"
  {
    var file := FileName(pathname);
    if Contains(file, "terms") then Some("terms")
    else if Contains(file, "privacy") then Some("privacy")
    else None
  }

  /** The inference looks only at the lower-cased file name: "terms" exactly when "terms" occurs
      in it, "privacy" exactly when "privacy" occurs and "terms" does not. */
  lemma {:induction false} InferPolicyFromFileName(pathname: string)
    ensures var file := FileName(pathname);
            var r := InferPolicyFromPath(pathname);
            (r == Some("terms") <==> exists k :: OccursAt(file, "terms", k))
            && (r == Some("privacy") <==> (!exists k :: OccursAt(file, "terms", k))
                                          && exists k :: OccursAt(file, "privacy", k))
            && (r == None <==> (!exists k :: OccursAt(file, "terms", k))
                               && !exists k :: OccursAt(file, "privacy", k))
  {
    var file := FileName(pathname);
    ContainsAt(file, "terms");
    ContainsAt(file, "privacy");
    assert |"terms"| != |"privacy"|;
  }

  /** `root.dataset.policy || inferPolicyFromPath() || "privacy"`; an absent attribute is "". */
  function PolicyName(dataPolicy: string, pathname: string): (r: string)
    ensures r != ""
    ensures dataPolicy != "" ==> r == dataPolicy
    ensures dataPolicy == "" ==> (r == "terms" || r == "privacy")
    ensures dataPolicy == "" && InferPolicyFromPath(pathname).Some? ==> r == InferPolicyFromPath(pathname).value
    ensures dataPolicy == "" && InferPolicyFromPath(pathname).None? ==> r == "privacy"
  {
    if dataPolicy != "" then dataPolicy
    else match InferPolicyFromPath(pathname)
      case Some(n) => n
      case None => "privacy"
  }

  /** The lower-cased `?lang=` value, "en" when it is absent or empty. */
  function Lang(param: Option<string>): (r: string)
    ensures r != "" && ToLower(r) == r
    ensures param.Some? && param.value != "" ==> r == ToLower(param.value)
    ensures param.None? || param.value == "" ==> r == "en"
  {
    var requested := if param.Some? && param.value != "" then param.value else "en";
    ToLowerIdempotent(requested);
    ToLower(requested)
  }

  function PrimaryUrl(name: string, lang: string): string {
    "data/policies/" + name + "." + lang + ".json"
  }

  function FallbackUrl(name: string): string {
    "data/policies/" + name + ".en.json"
  }

  /** The fallback URL is the primary one exactly when the language is already English, so
      for English a failed load is retried once against the same URL. */
  lemma {:induction false} FallbackSameAsPrimary(name: string, lang: string)
    ensures PrimaryUrl(name, lang) == FallbackUrl(name) <==> lang == "en"
  {
    var pre := "data/policies/" + name;
    assert PrimaryUrl(name, lang) == pre + "." + lang + ".json";
    assert FallbackUrl(name) == pre + ".en.json";
    if PrimaryUrl(name, lang) == FallbackUrl(name) {
      assert |lang| == 2;
      var n := |pre|;
      assert PrimaryUrl(name, lang)[n + 1] == lang[0];
      assert FallbackUrl(name)[n + 1] == 'e';
      assert PrimaryUrl(name, lang)[n + 2] == lang[1];
      assert FallbackUrl(name)[n + 2] == 'n';
      assert lang == [lang[0], lang[1]];
    }
  }

  // ---------------------------------------------------------------- loading

  /** `fetchJson(url)`: a rejected fetch passes its error on; a response that is not ok becomes
      an Error naming the URL and status; otherwise the parsed body (or the parse error). */
  function FetchJson(url: string, response: Result<Response>): (r: Result<Json>)
    ensures response.Err? ==> r == Err(response.error)
    ensures r.Ok? <==> response.Ok? && response.value.ok && response.value.json.Ok?
    ensures r.Ok? ==> r == response.value.json
    ensures response.Ok? && !response.value.ok ==>
              r.Err? && r.error.Thrown? && StartsWith(r.error.message, "Fetch failed: " + url)
  {
    match response
    case Err(e) => Err(e)
    case Ok(res) =>
      if !res.ok then Err(Thrown("Fetch failed: " + url + " (" + IntToString(res.status) + ")"))
      else res.json
  }

  /** What the load produced and the URLs it requested, in order. */
  datatype Loaded = Loaded(outcome: Result<Json>, requested: seq<string>)

  /** `fetchJson(base).catch(() => fetchJson(fallback))`. `fetch(i, url)` is the outcome of the
      i-th request (0 for the first, 1 for the retry), so a retry of the same URL, which happens
      for English, may succeed where the first request failed. */
  function Load(fetch: (nat, string) -> Result<Response>, name: string, lang: string): (r: Loaded)
    ensures 1 <= |r.requested| <= 2 && r.requested[0] == PrimaryUrl(name, lang)
    ensures |r.requested| == 2 <==> FetchJson(PrimaryUrl(name, lang), fetch(0, PrimaryUrl(name, lang))).Err?
    ensures |r.requested| == 1 ==> r.outcome == FetchJson(PrimaryUrl(name, lang), fetch(0, PrimaryUrl(name, lang)))
    ensures |r.requested| == 2 ==> r.requested[1] == FallbackUrl(name)
                                   && r.outcome == FetchJson(FallbackUrl(name), fetch(1, FallbackUrl(name)))
    ensures r.outcome.Err? ==> |r.requested| == 2
  {
    var base := PrimaryUrl(name, lang);
    var fallback := FallbackUrl(name);
    match FetchJson(base, fetch(0, base))
    case Ok(data) => Loaded(Ok(data), [base])
    case Err(_) => Loaded(FetchJson(fallback, fetch(1, fallback)), [base, fallback])
  }

  // ---------------------------------------------------------------- normalisation

  /** `str(v)`. */
  function AsText(v: Json): string {
    if Nullish(v) then "" else ToStr(v)
  }

  /** `arr(v)`. */
  function AsList(v: Json): seq<Json> {
    if v.Arr? then v.items else []
  }

  /** `arr(v).map(str)`. */
  function TextList(v: Json): seq<string> {
    var xs := AsList(v);
    seq(|xs|, i requires 0 <= i < |xs| => AsText(xs[i]))
  }

  /** The defaulting rule for one string field: null and undefined become "", anything else
      is converted with `String`. */
  ghost predicate TextFrom(v: Json, s: string) {
    if v.Null? || v.Undefined? then s == "" else s == ToStr(v)
  }

  /** The defaulting rule for one list-of-strings field: an array keeps its length and converts
      each element; anything else becomes the empty list. */
  ghost predicate TextsFrom(v: Json, xs: seq<string>) {
    if v.Arr? then |xs| == |v.items| && forall i :: 0 <= i < |xs| ==> TextFrom(v.items[i], xs[i])
    else xs == []
  }

  ghost predicate SectionFrom(v: Json, sec: Section) {
    TextFrom(Field(v, "heading"), sec.heading)
    && TextsFrom(Field(v, "paragraphs"), sec.paragraphs)
    && TextsFrom(Field(v, "bullets"), sec.bullets)
    && TextsFrom(Field(v, "notes"), sec.notes)
  }

  /** The whole defaulting relation between a raw policy object and its normalised document. */
  ghost predicate NormalizedFrom(d: Json, doc: Document) {
    TextFrom(Field(d, "version"), doc.version)
    && TextFrom(Field(d, "effectiveDate"), doc.effectiveDate)
    && TextFrom(Field(d, "title"), doc.title)
    && TextsFrom(Field(d, "intro"), doc.intro)
    && (var ss := Field(d, "sections");
        if ss.Arr? then |doc.sections| == |ss.items|
                        && forall i :: 0 <= i < |ss.items| ==> SectionFrom(ss.items[i], doc.sections[i])
        else doc.sections == [])
    && (doc.contact.Some? <==> Truthy(Field(d, "contact")))
    && (doc.contact.Some? ==>
          TextFrom(Field(Field(d, "contact"), "label"), doc.contact.value.labelText)
          && TextFrom(Field(Field(d, "contact"), "mailto"), doc.contact.value.mailto))
  }

  lemma TextListFrom(v: Json)
    ensures TextsFrom(v, TextList(v))
  {
  }

  /** The per-section part of `normalize`; reading `heading` of a null section throws. */
  function NormalizeSection(s: Json): (r: Result<Section>)
    ensures r.Err? <==> Nullish(s)
    ensures r.Err? ==> r.error == ReadOfNullish("heading")
    ensures r.Ok? ==> SectionFrom(s, r.value)
  {
    // The first read, `s.heading`, throws on a null section; the later reads cannot.
    var heading :- Prop(s, "heading");
    var paragraphs := Field(s, "paragraphs");
    var bullets := Field(s, "bullets");
    var notes := Field(s, "notes");
    TextListFrom(paragraphs);
    TextListFrom(bullets);
    TextListFrom(notes);
    Ok(Section(AsText(heading), TextList(paragraphs), TextList(bullets), TextList(notes)))
  }

  /** `normalize(d)`: succeeds on every non-null value whose sections are all non-null, and then
      fills each field by the defaulting rules; a null or undefined document fails at its first
      property read (`version`), a null section at its `heading`. */
  function Normalize(d: Json): (r: Result<Document>)
    ensures r.Err? <==> Nullish(d) || exists i :: 0 <= i < |AsList(Field(d, "sections"))|
                                                 && Nullish(AsList(Field(d, "sections"))[i])
    ensures Nullish(d) ==> r == Err(ReadOfNullish("version"))
    ensures !Nullish(d) && r.Err? ==> r.error == ReadOfNullish("heading")
    ensures r.Ok? ==> NormalizedFrom(d, r.value)
  {
    // The first read, `d.version`, throws on a null document; the later reads of `d` cannot.
    var version :- Prop(d, "version");
    var effectiveDate := Field(d, "effectiveDate");
    var title := Field(d, "title");
    var intro := Field(d, "intro");
    var sections :- MapAll(AsList(Field(d, "sections")), NormalizeSection);
    var contact := Field(d, "contact");
    TextListFrom(intro);
    // `d.contact.label` is read only when `d.contact` is truthy, hence not null.
    var c := if Truthy(contact) then Some(Contact(AsText(Field(contact, "label")), AsText(Field(contact, "mailto"))))
             else None;
    Ok(Document(AsText(version), AsText(effectiveDate), AsText(title), TextList(intro), sections, c))
  }

  // ---------------------------------------------------------------- rendering (specification)

  /** `titleCase(s)`: the first character upper-cased, the rest unchanged. */
  function TitleCase(s: string): (r: string)
    ensures |r| == |s|
    ensures s != [] ==> !('a' <= r[0] <= 'z') && LowerChar(r[0]) == LowerChar(s[0])
    ensures forall i :: 0 < i < |s| ==> r[i] == s[i]
  {
    if s == [] then "" else [UpperChar(s[0])] + s[1..]
  }

  /** Title-casing only changes the case of the first character: the result never starts with a
      lower-case letter, it lowers to the same text as its input, a text that already starts
      with a capital (or a non-letter) is returned as is, and title-casing twice changes nothing. */
  lemma TitleCaseProps(s: string)
    ensures s != [] ==> !('a' <= TitleCase(s)[0] <= 'z')
    ensures ToLower(TitleCase(s)) == ToLower(s)
    ensures s != [] && !('a' <= s[0] <= 'z') ==> TitleCase(s) == s
    ensures TitleCase(TitleCase(s)) == TitleCase(s)
  {
    if s != [] {
      var r := TitleCase(s);
      CaseRoundTrip(s[0]);
      assert ToLower(r)[0] == ToLower(s)[0];
      assert forall i :: 1 <= i < |s| ==> ToLower(r)[i] == ToLower(s)[i];
    }
  }

  /** The separator placed between the two meta fragments (a bullet between double spaces). */
  const MetaSeparator: string := "  \U{2022}  "

  /** The separator literally present in the source: the UTF-8 bytes of the bullet read back as
      Windows-1252 characters. */
  const MetaSeparatorAsWritten: string := "  \U{E2}\U{20AC}\U{A2}  "

  /** The date fragment of the meta line, empty when the document has no effective date. */
  function DateFragment(doc: Document, localeFormat: string -> Option<string>): string {
    if doc.effectiveDate != "" then "Effective Date: " + FormatDate(localeFormat, doc.effectiveDate) else ""
  }

  /** The version fragment of the meta line, empty when the document has no version. */
  function VersionFragment(doc: Document): string {
    if doc.version != "" then "Version: " + doc.version else ""
  }

  /** The meta line's text: the fragments that are present, with `sep` between two of them. */
  function MetaTextWith(doc: Document, localeFormat: string -> Option<string>, sep: string): string {
    var eff := DateFragment(doc, localeFormat);
    var ver := VersionFragment(doc);
    if eff != "" && ver != "" then eff + sep + ver else eff + ver
  }

  /** The meta line's text as the source writes it. */
  function MetaTextAsWritten(doc: Document, localeFormat: string -> Option<string>): string {
    MetaTextWith(doc, localeFormat, MetaSeparatorAsWritten)
  }

  /** The meta line's text with the intended bullet separator; the rest of the model uses this. */
  function MetaText(doc: Document, localeFormat: string -> Option<string>): string {
    MetaTextWith(doc, localeFormat, MetaSeparator)
  }

  function MetaNodes(doc: Document, localeFormat: string -> Option<string>): seq<Node> {
    var text := MetaText(doc, localeFormat);
    if text != "" then [Meta(text)] else []
  }

  /** The meta text is what filtering out the empty fragments and joining the rest with the
      separator yields. */
  lemma MetaTextIsFilterJoin(doc: Document, localeFormat: string -> Option<string>, sep: string)
    ensures MetaTextWith(doc, localeFormat, sep)
            == Join(NonEmpty([DateFragment(doc, localeFormat), VersionFragment(doc)]), sep)
  {
    var eff := "Effective Date: " + FormatDate(localeFormat, doc.effectiveDate);
    var ver := "Version: " + doc.version;
    assert eff != "" && ver != "";
    assert NonEmpty([eff, ver]) == [eff, ver] by {
      assert NonEmpty([eff, ver][1..]) == [ver];
    }
    assert Join([eff, ver], sep) == eff + sep + ver by {
      assert [eff, ver][1..] == [ver];
    }
    assert NonEmpty(["", ver]) == [ver] by {
      assert NonEmpty(["", ver][1..]) == [ver];
    }
    assert NonEmpty([eff, ""]) == [eff] by {
      assert NonEmpty([eff, ""][1..]) == [];
    }
    assert NonEmpty(["", ""]) == [] by {
      assert NonEmpty(["", ""][1..]) == [];
    }
  }

  /** The meta paragraph appears exactly when the document has an effective date or a version. */
  lemma MetaLinePresence(doc: Document, localeFormat: string -> Option<string>)
    ensures |MetaNodes(doc, localeFormat)| <= 1
    ensures MetaNodes(doc, localeFormat) != [] <==> doc.effectiveDate != "" || doc.version != ""
  {
  }

  /** As written, the separator differs from the intended bullet whenever both fragments are
      shown: the line contains "â" where a reader expects "•". */
  lemma MetaSeparatorMojibake(doc: Document, localeFormat: string -> Option<string>)
    requires doc.effectiveDate != "" && doc.version != ""
    ensures MetaTextAsWritten(doc, localeFormat) != MetaText(doc, localeFormat)
    ensures '\U{E2}' in MetaTextAsWritten(doc, localeFormat)
  {
    var eff := "Effective Date: " + FormatDate(localeFormat, doc.effectiveDate);
    assert MetaTextAsWritten(doc, localeFormat)[|eff| + 2] == '\U{E2}';
    assert MetaText(doc, localeFormat)[|eff| + 2] == '\U{2022}';
  }

  /** The page heading: the title, or the policy name with its first letter upper-cased. */
  function HeadingText(doc: Document, name: string): string {
    if doc.title != "" then doc.title else TitleCase(name)
  }

  /** One paragraph per string, in order. */
  function Paragraphs(xs: seq<string>): (r: seq<Node>)
    ensures |r| == |xs|
  {
    if xs == [] then [] else Paragraphs(xs[..|xs| - 1]) + [P(xs[|xs| - 1])]
  }

  /** One muted paragraph per note, in order. */
  function Notes(xs: seq<string>): (r: seq<Node>)
    ensures |r| == |xs|
  {
    if xs == [] then [] else Notes(xs[..|xs| - 1]) + [MutedP(xs[|xs| - 1])]
  }

  /** A section's subheading: its heading, or "Section n" with n counted from 1. */
  function SectionHeading(sec: Section, number: nat): string {
    if sec.heading != "" then sec.heading else "Section " + NatToString(number)
  }

  function BulletNodes(sec: Section): seq<Node> {
    if sec.bullets != [] then [Ul(sec.bullets)] else []
  }

  /** What the `section.policy-section` element holds. */
  function SectionChildren(sec: Section, number: nat): seq<Node> {
    [H2(SectionHeading(sec, number))] + Paragraphs(sec.paragraphs) + BulletNodes(sec) + Notes(sec.notes)
  }

  /** One section element per section, in document order, numbered from 1. */
  function SectionBoxes(secs: seq<Section>): (r: seq<Node>)
    ensures |r| == |secs|
  {
    if secs == [] then []
    else SectionBoxes(secs[..|secs| - 1]) + [SectionBox(SectionChildren(secs[|secs| - 1], |secs|))]
  }

  /** The k-th paragraph shows the k-th string. */
  lemma {:induction false} ParagraphsAt(xs: seq<string>)
    ensures forall k :: 0 <= k < |xs| ==> Paragraphs(xs)[k] == P(xs[k])
  {
    if xs != [] {
      ParagraphsAt(xs[..|xs| - 1]);
    }
  }

  /** The k-th muted paragraph shows the k-th note. */
  lemma {:induction false} NotesAt(xs: seq<string>)
    ensures forall k :: 0 <= k < |xs| ==> Notes(xs)[k] == MutedP(xs[k])
  {
    if xs != [] {
      NotesAt(xs[..|xs| - 1]);
    }
  }

  /** The k-th box holds the k-th section, numbered k + 1. */
  lemma {:induction false} SectionBoxesAt(secs: seq<Section>)
    ensures forall k :: 0 <= k < |secs| ==> SectionBoxes(secs)[k] == SectionBox(SectionChildren(secs[k], k + 1))
  {
    if secs != [] {
      SectionBoxesAt(secs[..|secs| - 1]);
    }
  }

  /** The contact block, shown when a contact has a label or an address. */
  function ContactNodes(contact: Option<Contact>): seq<Node> {
    match contact
    case None => []
    case Some(c) =>
      if c.mailto != "" || c.labelText != "" then
        var linkText := if c.labelText != "" then c.labelText else c.mailto;
        var href := if c.mailto != "" then c.mailto else "mailto:" + linkText;
        [Rule, H2("Contact Us"), EmailLine(linkText, href)]
      else []
  }

  /** The heading, the meta line when there is one, and the divider. */
  function HeadNodes(doc: Document, name: string, localeFormat: string -> Option<string>): seq<Node> {
    [H1(HeadingText(doc, name))] + MetaNodes(doc, localeFormat) + [Rule]
  }

  /** The children of the container `renderPolicy` builds. */
  function PolicyNodes(doc: Document, name: string, localeFormat: string -> Option<string>): seq<Node> {
    HeadNodes(doc, name, localeFormat) + Paragraphs(doc.intro) + SectionBoxes(doc.sections) + ContactNodes(doc.contact)
  }

  /** What the policy root holds once the whole script has run. */
  function PolicyPage(dataPolicy: string, pathname: string, langParam: Option<string>,
                      fetch: (nat, string) -> Result<Response>, localeFormat: string -> Option<string>): seq<Node>
  {
    var name := PolicyName(dataPolicy, pathname);
    match Load(fetch, name, Lang(langParam)).outcome
    case Err(e) => [Unavailable(e)]
    case Ok(data) =>
      match Normalize(data)
      case Err(e) => [Unavailable(e)]
      case Ok(doc) => [Container(PolicyNodes(doc, name, localeFormat))]
  }

  // ---------------------------------------------------------------- properties of the rendering

  /** The heading is the title when there is one, else the capitalised policy name; an empty
      name gives an empty heading. */
  lemma HeadingFallback(doc: Document, name: string)
    ensures doc.title != "" ==> HeadingText(doc, name) == doc.title
    ensures doc.title == "" && name != "" ==>
              |HeadingText(doc, name)| == |name|
              && HeadingText(doc, name)[0] == UpperChar(name[0])
              && HeadingText(doc, name)[1..] == name[1..]
    ensures doc.title == "" && name == "" ==> HeadingText(doc, name) == ""
  {
  }

  /** Layout of one section: its subheading, its paragraphs, one bullet list only when there are
      bullets, then one muted paragraph per note. */
  lemma {:induction false} SectionLayout(sec: Section, number: nat)
    ensures var c := SectionChildren(sec, number);
            var np := |sec.paragraphs|;
            var nb := if sec.bullets != [] then 1 else 0;
            |c| == 1 + np + nb + |sec.notes|
            && c[0] == H2(if sec.heading != "" then sec.heading else "Section " + NatToString(number))
            && (forall k :: 0 <= k < np ==> c[1 + k] == P(sec.paragraphs[k]))
            && (sec.bullets != [] ==> c[1 + np] == Ul(sec.bullets))
            && (forall k :: 0 <= k < |sec.notes| ==> c[1 + np + nb + k] == MutedP(sec.notes[k]))
            && (forall k :: 0 <= k < |c| && c[k].Ul? ==> sec.bullets != [] && k == 1 + np)
  {
    var c := SectionChildren(sec, number);
    var np := |sec.paragraphs|;
    var nb := if sec.bullets != [] then 1 else 0;
    assert |c| == 1 + np + nb + |sec.notes|;
    SectionChildAt(sec, number, 0);
    forall k | 0 <= k < np ensures c[1 + k] == P(sec.paragraphs[k]) {
      SectionChildAt(sec, number, 1 + k);
    }
    if nb == 1 {
      SectionChildAt(sec, number, 1 + np);
    }
    forall k | 0 <= k < |sec.notes| ensures c[1 + np + nb + k] == MutedP(sec.notes[k]) {
      SectionChildAt(sec, number, 1 + np + nb + k);
    }
    forall k | 0 <= k < |c| && c[k].Ul? ensures sec.bullets != [] && k == 1 + np {
      SectionChildAt(sec, number, k);
    }
  }

  /** The node at one position of a section: the subheading, a paragraph, the bullet list or a
      note, according to where the position falls. */
  lemma SectionChildAt(sec: Section, number: nat, k: nat)
    requires k < 1 + |sec.paragraphs| + (if sec.bullets != [] then 1 else 0) + |sec.notes|
    ensures var c := SectionChildren(sec, number);
            var np := |sec.paragraphs|;
            var nb := if sec.bullets != [] then 1 else 0;
            |c| == 1 + np + nb + |sec.notes|
            && (k == 0 ==> c[k] == H2(SectionHeading(sec, number)))
            && (1 <= k < 1 + np ==> c[k] == P(sec.paragraphs[k - 1]))
            && (nb == 1 && k == 1 + np ==> c[k] == Ul(sec.bullets))
            && (1 + np + nb <= k ==> c[k] == MutedP(sec.notes[k - (1 + np + nb)]))
  {
    var np := |sec.paragraphs|;
    var nb := if sec.bullets != [] then 1 else 0;
    var h := [H2(SectionHeading(sec, number))];
    var ps := Paragraphs(sec.paragraphs);
    var bs := BulletNodes(sec);
    var ns := Notes(sec.notes);
    var front := h + ps + bs;
    assert SectionChildren(sec, number) == front + ns;
    assert |front| == 1 + np + nb;
    if k < |front| {
      IndexFront(front, ns, k);
      if k == 0 {
        IndexFront(h + ps, bs, 0);
        IndexFront(h, ps, 0);
      } else if k < 1 + np {
        ParagraphsAt(sec.paragraphs);
        IndexMiddle(h, ps, bs, k - 1);
      } else {
        IndexBack(h + ps, bs, 0);
      }
    } else {
      NotesAt(sec.notes);
      IndexBack(front, ns, k - |front|);
    }
  }

  /** A section without a heading is titled "Section n" for its 1-based position, so two such
      sections at different positions get different subheadings. */
  lemma {:induction false} SectionNumbersDistinct(secs: seq<Section>, i: nat, j: nat)
    requires i < j < |secs| && secs[i].heading == "" && secs[j].heading == ""
    ensures SectionBoxes(secs)[i] != SectionBoxes(secs)[j]
  {
    var hi := SectionHeading(secs[i], i + 1);
    var hj := SectionHeading(secs[j], j + 1);
    SectionBoxesAt(secs);
    NatToStringInjective(i + 1, j + 1);
    assert hi[8..] == NatToString(i + 1) && hj[8..] == NatToString(j + 1);
    assert SectionChildren(secs[i], i + 1)[0] == H2(hi);
    assert SectionChildren(secs[j], j + 1)[0] == H2(hj);
  }

  lemma {:induction false} NatToStringInjective(a: nat, b: nat)
    requires a != b
    ensures NatToString(a) != NatToString(b)
  {
    if NatToString(a) == NatToString(b) {
      var s := NatToString(a);
      if a < 10 && b < 10 {
      } else if a < 10 || b < 10 {
        // one string has a single digit, the other more
      } else {
        assert NatToString(a) == NatToString(a / 10) + [s[|s| - 1]];
        assert NatToString(b) == NatToString(b / 10) + [s[|s| - 1]];
        assert NatToString(a / 10) == s[..|s| - 1] == NatToString(b / 10);
        assert a % 10 == b % 10;
        NatToStringInjective(a / 10, b / 10);
      }
    }
  }

  /** The contact block appears exactly when the contact has a label or an address; its link
      shows the label (else the address) and points at the address (else "mailto:" + label). */
  lemma ContactBlock(contact: Option<Contact>)
    ensures var present := contact.Some? && (contact.value.mailto != "" || contact.value.labelText != "");
            (present ==>
              var c := contact.value;
              ContactNodes(contact) == [Rule, H2("Contact Us"),
                EmailLine(if c.labelText != "" then c.labelText else c.mailto,
                          if c.mailto != "" then c.mailto else "mailto:" + c.labelText)])
            && (!present ==> ContactNodes(contact) == [])
  {
  }

  /** Whether the meta paragraph is shown, as a count. */
  function MetaCount(doc: Document): nat {
    if doc.effectiveDate != "" || doc.version != "" then 1 else 0
  }

  /** Whether the contact block is shown. */
  predicate HasContact(doc: Document) {
    doc.contact.Some? && (doc.contact.value.mailto != "" || doc.contact.value.labelText != "")
  }

  /** The head of the page: the heading, the meta line exactly when it is shown, the divider. */
  lemma HeadLayout(doc: Document, name: string, localeFormat: string -> Option<string>)
    ensures var head := HeadNodes(doc, name, localeFormat);
            |head| == 2 + MetaCount(doc)
            && head[0] == H1(HeadingText(doc, name))
            && (MetaCount(doc) == 1 ==> head[1] == Meta(MetaText(doc, localeFormat)))
            && head[1 + MetaCount(doc)] == Rule
  {
    MetaLinePresence(doc, localeFormat);
  }

  /** The frame of the rendered document: heading, optional meta line, divider, then after the
      intro paragraphs and the sections the optional contact block; nothing else. */
  lemma PolicyLayout(doc: Document, name: string, localeFormat: string -> Option<string>)
    ensures |PolicyNodes(doc, name, localeFormat)|
            == 2 + MetaCount(doc) + |doc.intro| + |doc.sections| + (if HasContact(doc) then 3 else 0)
    ensures PolicyNodes(doc, name, localeFormat)[0] == H1(HeadingText(doc, name))
    ensures MetaCount(doc) == 1 ==> PolicyNodes(doc, name, localeFormat)[1] == Meta(MetaText(doc, localeFormat))
    ensures PolicyNodes(doc, name, localeFormat)[1 + MetaCount(doc)] == Rule
    ensures HasContact(doc) ==>
              PolicyNodes(doc, name, localeFormat)[2 + MetaCount(doc) + |doc.intro| + |doc.sections|] == Rule
  {
    var head := HeadNodes(doc, name, localeFormat);
    var body := Paragraphs(doc.intro) + SectionBoxes(doc.sections);
    var cs := ContactNodes(doc.contact);
    HeadLayout(doc, name, localeFormat);
    assert |body| == |doc.intro| + |doc.sections|;
    assert |cs| == if HasContact(doc) then 3 else 0;
    assert PolicyNodes(doc, name, localeFormat) == head + (body + cs);
    IndexFront(head, body + cs, 0);
    IndexFront(head, body + cs, 1 + MetaCount(doc));
    if MetaCount(doc) == 1 {
      IndexFront(head, body + cs, 1);
    }
    if HasContact(doc) {
      assert cs[0] == Rule;
      IndexBack(head + body, cs, 0);
    }
  }

  /** Indexing into the second of two concatenated parts. */
  lemma IndexBack(a: seq<Node>, b: seq<Node>, k: nat)
    requires k < |b|
    ensures (a + b)[|a| + k] == b[k]
  {
  }

  /** Indexing into the first of two concatenated parts. */
  lemma IndexFront(a: seq<Node>, b: seq<Node>, k: nat)
    requires k < |a|
    ensures (a + b)[k] == a[k]
  {
  }

  /** The intro paragraphs follow the divider, one per string, in order. */
  lemma PolicyIntroLayout(doc: Document, name: string, localeFormat: string -> Option<string>)
    ensures forall k :: 0 <= k < |doc.intro| ==>
              2 + MetaCount(doc) + k < |PolicyNodes(doc, name, localeFormat)|
              && PolicyNodes(doc, name, localeFormat)[2 + MetaCount(doc) + k] == P(doc.intro[k])
  {
    var head := HeadNodes(doc, name, localeFormat);
    var ps := Paragraphs(doc.intro);
    var rest := SectionBoxes(doc.sections) + ContactNodes(doc.contact);
    HeadLayout(doc, name, localeFormat);
    ParagraphsAt(doc.intro);
    assert PolicyNodes(doc, name, localeFormat) == head + ps + rest;
    forall k | 0 <= k < |doc.intro|
      ensures 2 + MetaCount(doc) + k < |PolicyNodes(doc, name, localeFormat)|
              && PolicyNodes(doc, name, localeFormat)[2 + MetaCount(doc) + k] == P(doc.intro[k])
    {
      IndexMiddle(head, ps, rest, k);
    }
  }

  /** The sections follow the intro, in document order, each numbered by its position from 1. */
  lemma PolicySectionsLayout(doc: Document, name: string, localeFormat: string -> Option<string>)
    ensures forall k :: 0 <= k < |doc.sections| ==>
              2 + MetaCount(doc) + |doc.intro| + k < |PolicyNodes(doc, name, localeFormat)|
              && PolicyNodes(doc, name, localeFormat)[2 + MetaCount(doc) + |doc.intro| + k]
                 == SectionBox(SectionChildren(doc.sections[k], k + 1))
  {
    var front := HeadNodes(doc, name, localeFormat) + Paragraphs(doc.intro);
    var ss := SectionBoxes(doc.sections);
    var cs := ContactNodes(doc.contact);
    HeadLayout(doc, name, localeFormat);
    SectionBoxesAt(doc.sections);
    assert PolicyNodes(doc, name, localeFormat) == front + ss + cs;
    forall k | 0 <= k < |doc.sections|
      ensures 2 + MetaCount(doc) + |doc.intro| + k < |PolicyNodes(doc, name, localeFormat)|
              && PolicyNodes(doc, name, localeFormat)[2 + MetaCount(doc) + |doc.intro| + k]
                 == SectionBox(SectionChildren(doc.sections[k], k + 1))
    {
      IndexMiddle(front, ss, cs, k);
    }
  }

  /** Indexing into the middle one of three concatenated parts. */
  lemma IndexMiddle(a: seq<Node>, b: seq<Node>, c: seq<Node>, k: nat)
    requires k < |b|
    ensures |a| + k < |a + b + c| && (a + b + c)[|a| + k] == b[k]
  {
  }

  /** When the requested language's document loads, the page shows it and nothing else is fetched. */
  lemma PageFromPrimary(dataPolicy: string, pathname: string, langParam: Option<string>,
                        fetch: (nat, string) -> Result<Response>, localeFormat: string -> Option<string>)
    ensures var name := PolicyName(dataPolicy, pathname);
            var url := PrimaryUrl(name, Lang(langParam));
            var r := FetchJson(url, fetch(0, url));
            r.Ok? && Normalize(r.value).Ok? ==>
              PolicyPage(dataPolicy, pathname, langParam, fetch, localeFormat)
                == [Container(PolicyNodes(Normalize(r.value).value, name, localeFormat))]
              && Load(fetch, name, Lang(langParam)).requested == [url]
  {
  }

  /** When the first request fails and the retry of the English document loads, the page shows
      the English document; for English this is the same URL requested twice. */
  lemma PageFromFallback(dataPolicy: string, pathname: string, langParam: Option<string>,
                         fetch: (nat, string) -> Result<Response>, localeFormat: string -> Option<string>, doc: Document)
    requires var name := PolicyName(dataPolicy, pathname);
             var url := PrimaryUrl(name, Lang(langParam));
             var en := FallbackUrl(name);
             FetchJson(url, fetch(0, url)).Err? && FetchJson(en, fetch(1, en)).Ok?
             && Normalize(FetchJson(en, fetch(1, en)).value) == Ok(doc)
    ensures PolicyPage(dataPolicy, pathname, langParam, fetch, localeFormat)
            == [Container(PolicyNodes(doc, PolicyName(dataPolicy, pathname), localeFormat))]
    ensures var name := PolicyName(dataPolicy, pathname);
            Load(fetch, name, Lang(langParam)).requested == [PrimaryUrl(name, Lang(langParam)), FallbackUrl(name)]
  {
  }

  /** With no `lang` parameter the page asks for English; when that first request fails and the
      retry of the same URL succeeds, the page shows the document the retry delivered. */
  lemma EnglishRetry(dataPolicy: string, pathname: string, fetch: (nat, string) -> Result<Response>,
                     localeFormat: string -> Option<string>, doc: Document)
    requires var url := FallbackUrl(PolicyName(dataPolicy, pathname));
             FetchJson(url, fetch(0, url)).Err? && FetchJson(url, fetch(1, url)).Ok?
             && Normalize(FetchJson(url, fetch(1, url)).value) == Ok(doc)
    ensures PolicyPage(dataPolicy, pathname, None, fetch, localeFormat)
            == [Container(PolicyNodes(doc, PolicyName(dataPolicy, pathname), localeFormat))]
    ensures var url := FallbackUrl(PolicyName(dataPolicy, pathname));
            Load(fetch, PolicyName(dataPolicy, pathname), Lang(None)).requested == [url, url]
  {
    FallbackSameAsPrimary(PolicyName(dataPolicy, pathname), Lang(None));
    PageFromFallback(dataPolicy, pathname, None, fetch, localeFormat, doc);
  }

  /** When both loads fail, the page is one "Unable to load policy" card carrying the error of
      the English fallback. */
  lemma PageWhenBothFail(dataPolicy: string, pathname: string, langParam: Option<string>,
                         fetch: (nat, string) -> Result<Response>, localeFormat: string -> Option<string>)
    requires var name := PolicyName(dataPolicy, pathname);
             var url := PrimaryUrl(name, Lang(langParam));
             FetchJson(url, fetch(0, url)).Err? && FetchJson(FallbackUrl(name), fetch(1, FallbackUrl(name))).Err?
    ensures var name := PolicyName(dataPolicy, pathname);
            PolicyPage(dataPolicy, pathname, langParam, fetch, localeFormat)
            == [Unavailable(FetchJson(FallbackUrl(name), fetch(1, FallbackUrl(name))).error)]
  {
  }

  /** The page is always one element: the document, or one error card exactly when loading or
      normalisation failed. */
  lemma PageIsOneElement(dataPolicy: string, pathname: string, langParam: Option<string>,
                         fetch: (nat, string) -> Result<Response>, localeFormat: string -> Option<string>)
    ensures var page := PolicyPage(dataPolicy, pathname, langParam, fetch, localeFormat);
            var outcome := Load(fetch, PolicyName(dataPolicy, pathname), Lang(langParam)).outcome;
            |page| == 1
            && (page[0].Unavailable? <==> outcome.Err? || Normalize(outcome.value).Err?)
            && (page[0].Container? <==> !page[0].Unavailable?)
  {
  }

  // ---------------------------------------------------------------- rendering (the script's steps)

  /** A `forEach` that appends one paragraph per string, in order. */
  method RenderParagraphs(lines: seq<string>) returns (ps: seq<Node>)
    ensures ps == Paragraphs(lines)
  {
    ps := [];
    var i := 0;
    while i < |lines|
      invariant 0 <= i <= |lines|
      invariant ps == Paragraphs(lines[..i])
    {
      ps := ps + [P(lines[i])];
      assert lines[..i + 1][..i] == lines[..i];
      i := i + 1;
    }
    assert lines[..i] == lines;
  }

  /** The list items of a section's bullet list, one per bullet, in order. */
  method RenderBullets(bullets: seq<string>) returns (items: seq<string>)
    ensures items == bullets
  {
    items := [];
    var j := 0;
    while j < |bullets|
      invariant 0 <= j <= |bullets|
      invariant items == bullets[..j]
    {
      items := items + [bullets[j]];
      j := j + 1;
    }
  }

  /** A section's notes, one muted paragraph each, in order. */
  method RenderNotes(notes: seq<string>) returns (ns: seq<Node>)
    ensures ns == Notes(notes)
  {
    ns := [];
    var k := 0;
    while k < |notes|
      invariant 0 <= k <= |notes|
      invariant ns == Notes(notes[..k])
    {
      ns := ns + [MutedP(notes[k])];
      assert notes[..k + 1][..k] == notes[..k];
      k := k + 1;
    }
    assert notes[..k] == notes;
  }

  /** Builds one `section.policy-section` element, appending child by child. */
  method RenderSection(sec: Section, number: nat) returns (box: Node)
    ensures box == SectionBox(SectionChildren(sec, number))
  {
    var children := [H2(if sec.heading != "" then sec.heading else "Section " + NatToString(number))];
    var ps := RenderParagraphs(sec.paragraphs);
    children := children + ps;
    if |sec.bullets| > 0 {
      var items := RenderBullets(sec.bullets);
      children := children + [Ul(items)];
    }
    var ns := RenderNotes(sec.notes);
    children := children + ns;
    box := SectionBox(children);
  }

  /** The `sections.forEach` loop of `renderPolicy`: one section element per section, numbered
      from 1. */
  method RenderSections(sections: seq<Section>) returns (boxes: seq<Node>)
    ensures boxes == SectionBoxes(sections)
  {
    boxes := [];
    var idx := 0;
    while idx < |sections|
      invariant 0 <= idx <= |sections|
      invariant boxes == SectionBoxes(sections[..idx])
    {
      var box := RenderSection(sections[idx], idx + 1);
      boxes := boxes + [box];
      assert sections[..idx + 1][..idx] == sections[..idx];
      idx := idx + 1;
    }
    assert sections[..idx] == sections;
  }

  /** The heading, the meta paragraph when its text is not empty, and the divider. */
  method RenderHead(policy: Document, name: string, localeFormat: string -> Option<string>)
    returns (head: seq<Node>)
    ensures head == HeadNodes(policy, name, localeFormat)
  {
    head := [H1(if policy.title != "" then policy.title else TitleCase(name))];
    var meta := MetaText(policy, localeFormat);
    if meta != "" {
      head := head + [Meta(meta)];
    }
    head := head + [Rule];
  }

  /** The contact block: a divider, the "Contact Us" subheading and the e-mail line, when the
      contact has a label or an address. */
  method RenderContact(contact: Option<Contact>) returns (block: seq<Node>)
    ensures block == ContactNodes(contact)
  {
    block := [];
    if contact.Some? && (contact.value.mailto != "" || contact.value.labelText != "") {
      block := block + [Rule, H2("Contact Us")];
      var c := contact.value;
      var linkText := if c.labelText != "" then c.labelText else c.mailto;
      var mailto := if c.mailto != "" then c.mailto else "mailto:" + linkText;
      block := block + [EmailLine(linkText, mailto)];
    }
  }

  /** The body of `renderPolicy` after normalisation: builds the container element part by
      part, in the order the script appends them. */
  method BuildContainer(policy: Document, name: string, localeFormat: string -> Option<string>)
    returns (container: seq<Node>)
    ensures container == PolicyNodes(policy, name, localeFormat)
  {
    container := RenderHead(policy, name, localeFormat);
    var intro := RenderParagraphs(policy.intro);
    container := container + intro;
    var boxes := RenderSections(policy.sections);
    container := container + boxes;
    var contact := RenderContact(policy.contact);
    container := container + contact;
  }

  /** `renderPolicy(root, data)`: normalises `data` (an exception leaves the root untouched and
      is passed on), builds the container and makes it the root's only child. */
  method RenderPolicy(root: PolicyRoot, data: Json, name: string, localeFormat: string -> Option<string>)
    returns (thrown: Option<Failure>)
    modifies root
    ensures Normalize(data).Err? ==> thrown == Some(Normalize(data).error) && root.children == old(root.children)
    ensures Normalize(data).Ok? ==> thrown == None
                                    && root.children == [Container(PolicyNodes(Normalize(data).value, name, localeFormat))]
  {
    var normalized := Normalize(data);
    if normalized.Err? {
      return Some(normalized.error);
    }
    var container := BuildContainer(normalized.value, name, localeFormat);
    root.children := [Container(container)];
    thrown := None;
  }

  /** The whole script: choose the policy and language, load with the English fallback, render,
      and show the error card for any failure. Returns the URLs requested, in order. */
  method LoadAndRender(root: PolicyRoot, dataPolicy: string, pathname: string, langParam: Option<string>,
                       fetch: (nat, string) -> Result<Response>, localeFormat: string -> Option<string>)
    returns (requested: seq<string>)
    modifies root
    ensures root.children == PolicyPage(dataPolicy, pathname, langParam, fetch, localeFormat)
    ensures requested == Load(fetch, PolicyName(dataPolicy, pathname), Lang(langParam)).requested
  {
    var policyName := PolicyName(dataPolicy, pathname);
    var lang := Lang(langParam);
    var loaded := Load(fetch, policyName, lang);
    requested := loaded.requested;
    match loaded.outcome {
      case Err(e) =>
        root.children := [Unavailable(e)];
      case Ok(data) =>
        var thrown := RenderPolicy(root, data, policyName, localeFormat);
        if thrown.Some? {
          root.children := [Unavailable(thrown.value)];
        }
    }
  }
}
