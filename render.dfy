/** generateResumeHTML and the renderers it calls: a pure function from the
    record and the template id to the preview markup. Each template literal
    is the Concat of its pieces, layout white space included. Reading a
    property of null, or calling `map` on something that is not an array,
    throws in the source; here that is an Err result. */
module Render {
  import opened Wrappers
  import opened JsValues
  import opened Record
  import opened Sections

  function Spaces(n: nat): string
  {
    seq(n, _ => ' ')
  }

  /** A line break followed by n spaces, the layout of the template
      literals. */
  function Ln(n: nat): string
  {
    "\n" + Spaces(n)
  }

  // ---------------------------------------------------------------------
  // Header, contact and summary
  // ---------------------------------------------------------------------

  function PhotoHTML(d: Data): string
  {
    if Present(Field(d, "photo"))
    then Concat(["<img src=\"", ToText(d["photo"]), "\" alt=\"Profile Photo\" class=\"profile-photo\">"])
    else ""
  }

  function NameLine(d: Data): string
  {
    Concat(["<h1>", Or(Field(d, "fullName"), "Your Name"), "</h1>"])
  }

  function JobTitleLine(d: Data): string
  {
    Concat(["<h2 class=\"job-title\">", Or(Field(d, "jobTitle"), "Your Job Title"), "</h2>"])
  }

  /** generateHeaderHTML */
  function HeaderHTML(d: Data): string
  {
    Concat([
      Ln(12), "<div class=\"resume-header\">",
      Ln(16), PhotoHTML(d),
      Ln(16), "<div class=\"header-text\">",
      Ln(20), NameLine(d),
      Ln(20), JobTitleLine(d),
      Ln(16), "</div>",
      Ln(12), "</div>",
      Ln(8)])
  }

  /** The header shows the name and the job title, or 'Your Name' and 'Your
      Job Title' when they are empty. */
  lemma HeaderPlaceholders(d: Data)
    ensures Contains(HeaderHTML(d), NameLine(d)) && Contains(HeaderHTML(d), JobTitleLine(d))
    ensures NameLine(d) == Concat(["<h1>", if Present(Field(d, "fullName")) then ToText(d["fullName"]) else "Your Name", "</h1>"])
    ensures JobTitleLine(d) == Concat(["<h2 class=\"job-title\">", if Present(Field(d, "jobTitle")) then ToText(d["jobTitle"]) else "Your Job Title", "</h2>"])
  {
    var parts := [
      Ln(12), "<div class=\"resume-header\">", Ln(16), PhotoHTML(d), Ln(16), "<div class=\"header-text\">",
      Ln(20), NameLine(d), Ln(20), JobTitleLine(d), Ln(16), "</div>", Ln(12), "</div>", Ln(8)];
    ConcatContainsPart(parts, 7);
    ConcatContainsPart(parts, 9);
  }

  /** The contact fields in display order, with their icon classes. */
  const ContactFields: seq<(string, string)> := [
    ("email", "fas fa-envelope"),
    ("phone", "fas fa-phone"),
    ("location", "fas fa-map-marker-alt"),
    ("website", "fas fa-globe"),
    ("linkedin", "fab fa-linkedin")
  ]

  function ContactLine(icon: string, v: Value): string
  {
    Concat(["<div class=\"contact-item\"><i class=\"", icon, "\"></i> ", ToText(v), "</div>"])
  }

  /** The contact line of a present field `f` (its name, its icon). */
  function FieldLine(d: Data, f: (string, string)): string
    requires Present(Field(d, f.0))
  {
    ContactLine(f.1, d[f.0])
  }

  /** The contactItems array from field `i` on: one line per truthy
      field, in field order. */
  function ContactLines(d: Data, fs: seq<(string, string)>, i: nat): seq<string>
    requires i <= |fs|
    decreases |fs| - i
  {
    if i == |fs| then []
    else (if Present(Field(d, fs[i].0)) then [FieldLine(d, fs[i])] else []) + ContactLines(d, fs, i + 1)
  }

  /** generateContactHTML */
  function ContactHTML(d: Data): string
  {
    var lines := ContactLines(d, ContactFields, 0);
    if |lines| > 0 then Concat(["<div class=\"contact-info\">", Concat(lines), "</div>"]) else ""
  }

  /** Positions, from `i` on, of the fields of `fs` that are truthy in `d`. */
  function PresentPositions(d: Data, fs: seq<(string, string)>, i: nat): seq<nat>
    requires i <= |fs|
    decreases |fs| - i
  {
    if i == |fs| then []
    else (if Present(Field(d, fs[i].0)) then [i] else []) + PresentPositions(d, fs, i + 1)
  }

  /** The j-th contact line is the line of the j-th truthy field. */
  lemma {:induction false} ContactLinesMatch(d: Data, fs: seq<(string, string)>, i: nat)
    requires i <= |fs|
    ensures |ContactLines(d, fs, i)| == |PresentPositions(d, fs, i)|
    ensures forall j :: 0 <= j < |PresentPositions(d, fs, i)| ==>
              var p := PresentPositions(d, fs, i)[j];
              i <= p < |fs| && Present(Field(d, fs[p].0)) && ContactLines(d, fs, i)[j] == FieldLine(d, fs[p])
    decreases |fs| - i
  {
    if i < |fs| {
      ContactLinesMatch(d, fs, i + 1);
    }
  }

  /** The contact lines follow field order, and no truthy field is
      missing from them. */
  lemma {:induction false} ContactPositionsOrderedComplete(d: Data, fs: seq<(string, string)>, i: nat)
    requires i <= |fs|
    ensures forall j :: 0 <= j < |PresentPositions(d, fs, i)| ==> i <= PresentPositions(d, fs, i)[j]
    ensures forall j, j' :: 0 <= j < j' < |PresentPositions(d, fs, i)| ==>
              PresentPositions(d, fs, i)[j] < PresentPositions(d, fs, i)[j']
    ensures forall k :: i <= k < |fs| && Present(Field(d, fs[k].0)) ==> k in PresentPositions(d, fs, i)
    decreases |fs| - i
  {
    if i < |fs| {
      ContactPositionsOrderedComplete(d, fs, i + 1);
    }
  }

  /** There is no contact line exactly when no field is truthy. */
  lemma ContactLinesEmptyIff(d: Data, fs: seq<(string, string)>)
    ensures ContactLines(d, fs, 0) == [] <==> forall i :: 0 <= i < |fs| ==> !Present(Field(d, fs[i].0))
  {
    ContactLinesMatch(d, fs, 0);
    ContactPositionsOrderedComplete(d, fs, 0);
    var pp := PresentPositions(d, fs, 0);
    if pp != [] {
      assert pp[0] < |fs| && Present(Field(d, fs[pp[0]].0));
    }
  }

  /** The contact block is '' exactly when every contact field is falsy. */
  lemma ContactEmptyIff(d: Data)
    ensures ContactHTML(d) == "" <==> forall i :: 0 <= i < |ContactFields| ==> !Present(Field(d, ContactFields[i].0))
  {
    ContactLinesEmptyIff(d, ContactFields);
    var lines := ContactLines(d, ContactFields, 0);
    if |lines| > 0 {
      var parts := ["<div class=\"contact-info\">", Concat(lines), "</div>"];
      assert Concat(parts) == parts[0] + Concat(parts[1..]);
    }
  }

  /** generateSummaryHTML */
  function SummaryHTML(v: Value): string
  {
    Concat([
      Ln(12), "<div class=\"resume-section\">",
      Ln(16), "<h2>Summary</h2>",
      Ln(16), "<p class=\"summary-text\">", ToText(v), "</p>",
      Ln(12), "</div>",
      Ln(8)])
  }

  /** `data.summary ? this.generateSummaryHTML(data.summary) : ''` */
  function SummaryBlock(d: Data): string
  {
    if Present(Field(d, "summary")) then SummaryHTML(d["summary"]) else ""
  }

  /** The summary block is omitted exactly when the summary is empty, and
      otherwise shows the summary text. */
  lemma SummaryOmittedIff(d: Data)
    ensures SummaryBlock(d) == "" <==> !Present(Field(d, "summary"))
    ensures Present(Field(d, "summary")) ==> Contains(SummaryBlock(d), ToText(d["summary"]))
  {
    if Present(Field(d, "summary")) {
      var v := d["summary"];
      var parts := [Ln(12), "<div class=\"resume-section\">", Ln(16), "<h2>Summary</h2>",
                    Ln(16), "<p class=\"summary-text\">", ToText(v), "</p>", Ln(12), "</div>", Ln(8)];
      ConcatContainsPart(parts, 3);
      ConcatContainsPart(parts, 6);
    }
  }

  // ---------------------------------------------------------------------
  // Section items
  // ---------------------------------------------------------------------

  function TitleLine(t: string): string
  {
    Concat(["<div class=\"item-title\">", t, "</div>"])
  }

  function SubtitleLine(t: string): string
  {
    Concat(["<div class=\"item-subtitle\">", t, "</div>"])
  }

  function MetaLine(t: string): string
  {
    Concat(["<div class=\"item-meta\">", t, "</div>"])
  }

  /** `${v ? `<p class="item-description">${prefix}${v}</p>` : ''}` */
  function DescriptionLine(v: Option<Value>, prefix: string): string
  {
    if Present(v) then Concat(["<p class=\"item-description\">", prefix, ToText(v.value), "</p>"]) else ""
  }

  /** `${v ? `• ${prefix}${v}` : ''}` */
  function Bullet(v: Option<Value>, prefix: string): string
  {
    if Present(v) then Concat(["\U{2022} ", prefix, ToText(v.value)]) else ""
  }

  /** The pieces of the layout shared by the item renderers that have a
      meta line. */
  function ItemParts(title: string, subtitle: string, meta: string, description: string): seq<string>
  {
    [Ln(12), "<div class=\"section-item\">",
     Ln(16), "<div class=\"item-header\">",
     Ln(20), TitleLine(title),
     Ln(20), SubtitleLine(subtitle),
     Ln(16), "</div>",
     Ln(16), MetaLine(meta),
     Ln(16), description,
     Ln(12), "</div>",
     Ln(8)]
  }

  function ItemBlock(title: string, subtitle: string, meta: string, description: string): string
  {
    Concat(ItemParts(title, subtitle, meta, description))
  }

  /** An item block shows its title, subtitle and meta line. */
  lemma ItemBlockShows(title: string, subtitle: string, meta: string, description: string)
    ensures Contains(ItemBlock(title, subtitle, meta, description), TitleLine(title))
    ensures Contains(ItemBlock(title, subtitle, meta, description), SubtitleLine(subtitle))
    ensures Contains(ItemBlock(title, subtitle, meta, description), MetaLine(meta))
  {
    var parts := ItemParts(title, subtitle, meta, description);
    ConcatContainsPart(parts, 5);
    ConcatContainsPart(parts, 7);
    ConcatContainsPart(parts, 11);
  }

  /** The meta line of an experience entry. */
  function ExperienceMeta(x: Value): string
    requires !x.Null?
  {
    Concat([Or(Prop(x, "startDate"), ""), " - ", Or(Prop(x, "endDate"), "Present"), " ", Bullet(Prop(x, "location"), "")])
  }

  /** getExperienceHTML */
  function ExperienceHTML(x: Value): Result<string>
  {
    if x.Null? then Err("TypeError: Cannot read properties of null (reading 'position')")
    else Ok(ItemBlock(
      Or(Prop(x, "position"), "Position"),
      Or(Prop(x, "company"), "Company"),
      ExperienceMeta(x),
      DescriptionLine(Prop(x, "description"), "")))
  }

  /** An experience entry shows its position and company, or the
      placeholders 'Position' and 'Company' when they are empty, and its
      dates, with 'Present' when the end date is empty. */
  lemma ExperiencePlaceholders(x: Value)
    requires !x.Null?
    ensures ExperienceHTML(x).Ok?
    ensures Contains(ExperienceHTML(x).value, TitleLine(Or(Prop(x, "position"), "Position")))
    ensures Contains(ExperienceHTML(x).value, SubtitleLine(Or(Prop(x, "company"), "Company")))
    ensures Contains(ExperienceHTML(x).value, MetaLine(ExperienceMeta(x)))
    ensures !Present(Prop(x, "endDate")) ==>
              ExperienceMeta(x) == Concat([Or(Prop(x, "startDate"), ""), " - ", "Present", " ", Bullet(Prop(x, "location"), "")])
  {
    ItemBlockShows(Or(Prop(x, "position"), "Position"), Or(Prop(x, "company"), "Company"), ExperienceMeta(x), DescriptionLine(Prop(x, "description"), ""));
  }

  /** getEducationHTML */
  function EducationHTML(x: Value): Result<string>
  {
    if x.Null? then Err("TypeError: Cannot read properties of null (reading 'degree')")
    else Ok(ItemBlock(
      Or(Prop(x, "degree"), "Degree"),
      Or(Prop(x, "institution"), "Institution"),
      Concat([Or(Prop(x, "graduationDate"), ""), " ", Bullet(Prop(x, "gpa"), "GPA: ")]),
      DescriptionLine(Prop(x, "description"), "")))
  }

  /** An education entry shows its degree and institution, or the
      placeholders 'Degree' and 'Institution' when they are empty. */
  lemma EducationPlaceholders(x: Value)
    requires !x.Null?
    ensures EducationHTML(x).Ok?
    ensures Contains(EducationHTML(x).value, TitleLine(Or(Prop(x, "degree"), "Degree")))
    ensures Contains(EducationHTML(x).value, SubtitleLine(Or(Prop(x, "institution"), "Institution")))
  {
    ItemBlockShows(Or(Prop(x, "degree"), "Degree"), Or(Prop(x, "institution"), "Institution"),
      Concat([Or(Prop(x, "graduationDate"), ""), " ", Bullet(Prop(x, "gpa"), "GPA: ")]), DescriptionLine(Prop(x, "description"), ""));
  }

  /** `skill.name || skill` */
  function SkillValue(e: Value): Value
  {
    if e.Obj? && Present(Field(e.fields, "name")) then e.fields["name"] else e
  }

  function SkillTag(v: Value): string
  {
    Concat(["<span class=\"skill-tag\">", ToText(v), "</span>"])
  }

  /** `skills.map(skill => skill.name || skill).filter(Boolean)`, as tags;
      reading `.name` of a null element throws. */
  function SkillTags(es: seq<Value>): Result<seq<string>>
  {
    if es == [] then Ok([])
    else if es[0].Null? then Err("TypeError: Cannot read properties of null (reading 'name')")
    else
      var rest :- SkillTags(es[1..]);
      var v := SkillValue(es[0]);
      Ok((if Truthy(v) then [SkillTag(v)] else []) + rest)
  }

  /** getSkillsHTML, which generateSectionHTML calls with ONE item at a
      time: it calls `map` on that item, so only an array item renders;
      any other item (the `{name: ...}` objects the form produces, strings,
      null) throws. */
  function SkillsHTML(x: Value): Result<string>
  {
    if !x.List? then Err("TypeError: skills.map is not a function")
    else
      var tags :- SkillTags(x.items);
      if |tags| == 0 then Ok("")
      else Ok(Concat([
        Ln(12), "<div class=\"section-item\">",
        Ln(16), "<div class=\"skills-list\">",
        Ln(20), Concat(tags),
        Ln(16), "</div>",
        Ln(12), "</div>",
        Ln(8)]))
  }

  /** getProjectsHTML */
  function ProjectHTML(x: Value): Result<string>
  {
    if x.Null? then Err("TypeError: Cannot read properties of null (reading 'name')")
    else
      var url := Prop(x, "url");
      var link := if Present(url) then Concat(["\U{2022} <a href=\"", ToText(url.value), "\" target=\"_blank\">View Project</a>"]) else "";
      Ok(ItemBlock(
        Or(Prop(x, "name"), "Project Name"),
        Or(Prop(x, "technologies"), ""),
        Concat([Or(Prop(x, "startDate"), ""), " - ", Or(Prop(x, "endDate"), "Present"), " ", link]),
        DescriptionLine(Prop(x, "description"), "")))
  }

  /** A project shows its name, or 'Project Name' when it is empty, and
      its technologies, or nothing. */
  lemma ProjectPlaceholders(x: Value)
    requires !x.Null?
    ensures ProjectHTML(x).Ok?
    ensures Contains(ProjectHTML(x).value, TitleLine(Or(Prop(x, "name"), "Project Name")))
    ensures Contains(ProjectHTML(x).value, SubtitleLine(Or(Prop(x, "technologies"), "")))
  {
    var url := Prop(x, "url");
    var link := if Present(url) then Concat(["\U{2022} <a href=\"", ToText(url.value), "\" target=\"_blank\">View Project</a>"]) else "";
    ItemBlockShows(Or(Prop(x, "name"), "Project Name"), Or(Prop(x, "technologies"), ""),
      Concat([Or(Prop(x, "startDate"), ""), " - ", Or(Prop(x, "endDate"), "Present"), " ", link]), DescriptionLine(Prop(x, "description"), ""));
  }

  /** getCertificationsHTML */
  function CertificationHTML(x: Value): Result<string>
  {
    if x.Null? then Err("TypeError: Cannot read properties of null (reading 'name')")
    else Ok(ItemBlock(
      Or(Prop(x, "name"), "Certification Name"),
      Or(Prop(x, "issuer"), "Issuer"),
      Concat([Or(Prop(x, "date"), ""), " ", Bullet(Prop(x, "expiry"), "Expires: ")]),
      DescriptionLine(Prop(x, "credentialId"), "Credential ID: ")))
  }

  /** A certification shows its name and issuer, or the placeholders
      'Certification Name' and 'Issuer' when they are empty. */
  lemma CertificationPlaceholders(x: Value)
    requires !x.Null?
    ensures CertificationHTML(x).Ok?
    ensures Contains(CertificationHTML(x).value, TitleLine(Or(Prop(x, "name"), "Certification Name")))
    ensures Contains(CertificationHTML(x).value, SubtitleLine(Or(Prop(x, "issuer"), "Issuer")))
  {
    ItemBlockShows(Or(Prop(x, "name"), "Certification Name"), Or(Prop(x, "issuer"), "Issuer"),
      Concat([Or(Prop(x, "date"), ""), " ", Bullet(Prop(x, "expiry"), "Expires: ")]), DescriptionLine(Prop(x, "credentialId"), "Credential ID: "));
  }

  /** getLanguagesHTML */
  function LanguageHTML(x: Value): Result<string>
  {
    if x.Null? then Err("TypeError: Cannot read properties of null (reading 'name')")
    else Ok(LanguageBlock(Or(Prop(x, "name"), "Language"), Or(Prop(x, "proficiency"), "Proficiency Level")))
  }

  /** The pieces of a language item, which has no meta line. */
  function LanguageParts(name: string, level: string): seq<string>
  {
    [Ln(12), "<div class=\"section-item\">",
     Ln(16), "<div class=\"item-header\">",
     Ln(20), TitleLine(name),
     Ln(20), SubtitleLine(level),
     Ln(16), "</div>",
     Ln(12), "</div>",
     Ln(8)]
  }

  function LanguageBlock(name: string, level: string): string
  {
    Concat(LanguageParts(name, level))
  }

  lemma LanguageBlockShows(name: string, level: string)
    ensures Contains(LanguageBlock(name, level), TitleLine(name))
    ensures Contains(LanguageBlock(name, level), SubtitleLine(level))
  {
    ConcatContainsPart(LanguageParts(name, level), 5);
    ConcatContainsPart(LanguageParts(name, level), 7);
  }

  /** A language shows its name and proficiency, or the placeholders
      'Language' and 'Proficiency Level' when they are empty. */
  lemma LanguagePlaceholders(x: Value)
    requires !x.Null?
    ensures LanguageHTML(x).Ok?
    ensures Contains(LanguageHTML(x).value, TitleLine(Or(Prop(x, "name"), "Language")))
    ensures Contains(LanguageHTML(x).value, SubtitleLine(Or(Prop(x, "proficiency"), "Proficiency Level")))
  {
    LanguageBlockShows(Or(Prop(x, "name"), "Language"), Or(Prop(x, "proficiency"), "Proficiency Level"));
  }

  /** The item renderer generateResumeHTML binds to each section and
      hands to generateSectionHTML. */
  function Renderer(s: Section): Value -> Result<string>
  {
    match s
    case Experience => ExperienceHTML
    case Education => EducationHTML
    case Skills => SkillsHTML
    case Projects => ProjectHTML
    case Certifications => CertificationHTML
    case Languages => LanguageHTML
  }

  /** An item renders without throwing: any non-null item, except in skills,
      where only an array without null elements does. */
  predicate ItemRenders(s: Section, x: Value) {
    if s == Skills then x.List? && forall i :: 0 <= i < |x.items| ==> !x.items[i].Null?
    else !x.Null?
  }

  lemma {:induction false} SkillTagsOkIff(es: seq<Value>)
    ensures SkillTags(es).Ok? <==> forall i :: 0 <= i < |es| ==> !es[i].Null?
  {
    if es != [] && !es[0].Null? {
      SkillTagsOkIff(es[1..]);
      assert forall i :: 1 <= i < |es| ==> es[i] == es[1..][i - 1];
    }
  }

  lemma ItemRendersIff(s: Section, x: Value)
    ensures Renderer(s)(x).Ok? <==> ItemRenders(s, x)
  {
    if s == Skills && x.List? {
      SkillTagsOkIff(x.items);
    }
  }

  /** `data.map(item => itemRenderer(item)).join('')` */
  function ItemsHTML(render: Value -> Result<string>, xs: seq<Value>): Result<string>
  {
    if xs == [] then Ok("")
    else
      var head :- render(xs[0]);
      var rest :- ItemsHTML(render, xs[1..]);
      Ok(head + rest)
  }

  /** The joined output exists exactly when no item's renderer throws. */
  lemma {:induction false} ItemsOkIffEach(render: Value -> Result<string>, xs: seq<Value>)
    ensures ItemsHTML(render, xs).Ok? <==> forall i :: 0 <= i < |xs| ==> render(xs[i]).Ok?
  {
    if xs != [] {
      ItemsOkIffEach(render, xs[1..]);
      assert forall i :: 1 <= i < |xs| ==> xs[i] == xs[1..][i - 1];
    }
  }

  lemma ItemsOkIff(s: Section, xs: seq<Value>)
    ensures ItemsHTML(Renderer(s), xs).Ok? <==> forall i :: 0 <= i < |xs| ==> ItemRenders(s, xs[i])
  {
    ItemsOkIffEach(Renderer(s), xs);
    forall i | 0 <= i < |xs|
      ensures Renderer(s)(xs[i]).Ok? <==> ItemRenders(s, xs[i])
    {
      ItemRendersIff(s, xs[i]);
    }
  }

  /** sectionTitles[section] */
  function Title(s: Section): string
  {
    match s
    case Experience => "Experience"
    case Education => "Education"
    case Skills => "Skills"
    case Projects => "Projects"
    case Certifications => "Certifications"
    case Languages => "Languages"
  }

  function SectionParts(s: Section, items: string): seq<string>
  {
    [Ln(12), "<div class=\"resume-section\">",
     Ln(16), Concat(["<h2>", Title(s), "</h2>"]),
     Ln(16), "<div class=\"section-content\">",
     Ln(20), items,
     Ln(16), "</div>",
     Ln(12), "</div>",
     Ln(8)]
  }

  lemma SectionPartsTitled(s: Section, items: string)
    ensures Contains(Concat(SectionParts(s, items)), Concat(["<h2>", Title(s), "</h2>"]))
  {
    ConcatContainsPart(SectionParts(s, items), 3);
  }

  /** generateSectionHTML. `!data || !data.length` lets through a truthy
      value with a truthy length: a non-empty array renders, a non-empty
      string or an object with a truthy `length` has no `map` and throws;
      anything else renders as ''. */
  function SectionHTML(s: Section, v: Option<Value>): Result<string>
  {
    if !Present(v) then Ok("")
    else
      match v.value
      case List(xs) =>
        if |xs| == 0 then Ok("")
        else
          var items :- ItemsHTML(Renderer(s), xs);
          Ok(Concat(SectionParts(s, items)))
      case Obj(m) => if Present(Field(m, "length")) then Err("TypeError: data.map is not a function") else Ok("")
      case Str(_) => Err("TypeError: data.map is not a function")
      case _ => Ok("")
  }

  /** A section renders without throwing exactly when its value is not a
      truthy string, not an object with a truthy length, and, for an array,
      every item renders. */
  predicate SectionRenders(s: Section, v: Option<Value>) {
    !Present(v) ||
    match v.value
    case List(xs) => forall i :: 0 <= i < |xs| ==> ItemRenders(s, xs[i])
    case Obj(m) => !Present(Field(m, "length"))
    case Str(_) => false
    case _ => true
  }

  lemma SectionRendersIff(s: Section, v: Option<Value>)
    ensures SectionHTML(s, v).Ok? <==> SectionRenders(s, v)
  {
    if Present(v) && v.value.List? {
      ItemsOkIff(s, v.value.items);
    }
  }

  /** A missing, falsy or empty section renders as ''. */
  lemma EmptySectionOmitted(s: Section, v: Option<Value>)
    requires !Present(v) || v.value == List([])
    ensures SectionHTML(s, v) == Ok("")
  {
  }

  /** A non-empty array section that renders produces a block under the
      section's title. */
  lemma NonEmptySectionTitled(s: Section, xs: seq<Value>)
    requires |xs| > 0 && forall i :: 0 <= i < |xs| ==> ItemRenders(s, xs[i])
    ensures SectionHTML(s, Some(List(xs))).Ok?
    ensures Contains(SectionHTML(s, Some(List(xs))).value, Concat(["<h2>", Title(s), "</h2>"]))
  {
    ItemsOkIff(s, xs);
    SectionPartsTitled(s, ItemsHTML(Renderer(s), xs).value);
  }

  /** A skills array holding an item that is not an array (such as the
      `{name: ...}` objects getSectionData produces) cannot be rendered. */
  lemma SkillsObjectItemThrows(xs: seq<Value>, i: nat)
    requires i < |xs| && !xs[i].List?
    ensures SectionHTML(Skills, Some(List(xs))).Err?
  {
    ItemsOkIff(Skills, xs);
  }

  // ---------------------------------------------------------------------
  // The whole document
  // ---------------------------------------------------------------------

  /** The opening of the root element up to the template id. */
  function RootOpen(): string
  {
    Ln(12) + "<div class=\"resume "
  }

  /** The blocks of the sections `ss`, in order, or the first one that
      throws. */
  function SectionBlocks(d: Data, ss: seq<Section>): (r: Result<seq<string>>)
    ensures r.Ok? ==> |r.value| == |ss|
  {
    if ss == [] then Ok([])
    else
      var block :- SectionHTML(ss[0], Field(d, Key(ss[0])));
      var rest :- SectionBlocks(d, ss[1..]);
      Ok([block] + rest)
  }

  lemma {:induction false} SectionBlocksOkIff(d: Data, ss: seq<Section>)
    ensures SectionBlocks(d, ss).Ok? <==> forall i :: 0 <= i < |ss| ==> SectionRenders(ss[i], Field(d, Key(ss[i])))
  {
    if ss != [] {
      SectionRendersIff(ss[0], Field(d, Key(ss[0])));
      SectionBlocksOkIff(d, ss[1..]);
      assert forall i :: 1 <= i < |ss| ==> ss[i] == ss[1..][i - 1];
    }
  }

  /** Everything after the template id: header, contact block, summary and
      the six sections. */
  function ResumeBody(d: Data): Result<string>
  {
    var b :- SectionBlocks(d, AllSections);
    Ok(Concat([
      "\" id=\"resumeContent\">",
      Ln(16), HeaderHTML(d),
      Ln(16), ContactHTML(d),
      Ln(16), SummaryBlock(d),
      Ln(16), b[0],
      Ln(16), b[1],
      Ln(16), b[2],
      Ln(16), b[3],
      Ln(16), b[4],
      Ln(16), b[5],
      Ln(12), "</div>",
      Ln(8)]))
  }

  /** generateResumeHTML for the record and the current template. */
  function ResumeHTML(d: Data, template: string): Result<string>
  {
    var body :- ResumeBody(d);
    Ok(RootOpen() + template + body)
  }

  /** The preview renders exactly when each of the six sections does. */
  lemma ResumeRendersIff(d: Data, template: string)
    ensures ResumeHTML(d, template).Ok? <==> forall s :: SectionRenders(s, Field(d, Key(s)))
  {
    SectionBlocksOkIff(d, AllSections);
    if !forall s :: SectionRenders(s, Field(d, Key(s))) {
      var s :| !SectionRenders(s, Field(d, Key(s)));
      assert AllSections[Index(s)] == s;
    }
  }

  /** The default record renders with any template: its sections are
      empty arrays. */
  lemma DefaultDataRenders(template: string)
    ensures ResumeHTML(DefaultData(), template).Ok?
  {
    ResumeRendersIff(DefaultData(), template);
    forall s ensures SectionRenders(s, Field(DefaultData(), Key(s))) {
    }
  }

  /** The template id appears only as the root element's class: two ids
      either both render or both throw, and their outputs agree before and
      after the id. */
  lemma TemplateOnlyInClass(d: Data, t1: string, t2: string)
    ensures ResumeHTML(d, t1).Ok? <==> ResumeHTML(d, t2).Ok?
    ensures ResumeHTML(d, t1).Ok? ==>
              var r1, r2, n := ResumeHTML(d, t1).value, ResumeHTML(d, t2).value, |RootOpen()|;
              |r1| - |t1| == |r2| - |t2| &&
              r1[..n] == r2[..n] &&
              r1[n..n + |t1|] == t1 &&
              r2[n..n + |t2|] == t2 &&
              r1[n + |t1|..] == r2[n + |t2|..]
  {
    if ResumeBody(d).Ok? {
      var b := ResumeBody(d).value;
      var o := RootOpen();
      assert (o + t1 + b)[|o| + |t1|..] == b;
      assert (o + t2 + b)[|o| + |t2|..] == b;
      assert (o + t1 + b)[..|o|] == o;
      assert (o + t2 + b)[..|o|] == o;
      assert (o + t1 + b)[|o|..|o| + |t1|] == t1;
      assert (o + t2 + b)[|o|..|o| + |t2|] == t2;
    }
  }
}
