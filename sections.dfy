/** The dynamic sections of the form: the per-section item schemas
    (getSectionItemHTML), reading items back (getSectionData, getFormData),
    filling them from the record (populateForm), and the list operations
    on a container (removeSectionItem, moveSectionItem). */
module Sections {
  import opened Wrappers
  import opened JsValues
  import opened Record

  datatype Section = Experience | Education | Skills | Projects | Certifications | Languages

  /** Object.keys(this.sectionContainers), in order. */
  const AllSections: seq<Section> :=
    [Experience, Education, Skills, Projects, Certifications, Languages]

  /** The position of a section in AllSections. */
  function Index(s: Section): (k: nat)
    ensures k < |AllSections| && AllSections[k] == s
  {
    match s
    case Experience => 0
    case Education => 1
    case Skills => 2
    case Projects => 3
    case Certifications => 4
    case Languages => 5
  }

  /** AllSections lists every section. */
  lemma AllSectionsComplete()
    ensures forall s :: s in AllSections
  {
    forall s ensures s in AllSections {
      assert AllSections[Index(s)] == s;
    }
  }

  /** The section's property name in the record. */
  function Key(s: Section): (k: string)
    ensures k in SectionKeys
  {
    match s
    case Experience => "experience"
    case Education => "education"
    case Skills => "skills"
    case Projects => "projects"
    case Certifications => "certifications"
    case Languages => "languages"
  }

  /** The `name` attributes of the controls in one item, in document order. */
  function Schema(s: Section): seq<string>
  {
    match s
    case Experience => ["position", "company", "startDate", "endDate", "location", "description"]
    case Education => ["degree", "institution", "graduationDate", "gpa", "description"]
    case Skills => ["name"]
    case Projects => ["name", "technologies", "startDate", "endDate", "url", "description"]
    case Certifications => ["name", "issuer", "date", "expiry", "credentialId"]
    case Languages => ["name", "proficiency"]
  }

  function SchemaKeys(s: Section): set<string>
  {
    set f | f in Schema(s)
  }

  /** The option values of the languages item's proficiency select. */
  const ProficiencyOptions: seq<string> := ["", "Native", "Fluent", "Advanced", "Intermediate", "Basic"]

  predicate IsSelect(s: Section, f: string) {
    s == Languages && f == "proficiency"
  }

  /** An item editor: the current value of each of its controls. */
  type Item = map<string, string>

  /** An item has exactly its section's controls, and a select holds one of
      its options. */
  predicate WellFormedItem(s: Section, it: Item) {
    it.Keys == SchemaKeys(s) &&
    (s == Languages ==> it["proficiency"] in ProficiencyOptions)
  }

  /** A freshly inserted item (getSectionItemHTML): every control empty;
      the select shows its first option, whose value is ''. */
  function BlankItem(s: Section): (it: Item)
    ensures WellFormedItem(s, it)
    ensures forall f :: f in it ==> it[f] == ""
  {
    map f | f in Schema(s) :: ""
  }

  // ---------------------------------------------------------------------
  // Reading items back (getSectionData, getFormData)
  // ---------------------------------------------------------------------

  /** One item of getSectionData: the controls whose trimmed value is
      non-empty, each with its untrimmed value. */
  function CollectItem(it: Item): Item
  {
    map f | f in it && Trim(it[f]) != "" :: it[f]
  }

  /** The collected item holds exactly the fields that contain a character
      other than white space, with their values untouched. */
  lemma CollectItemKeepsNonBlank(it: Item)
    ensures forall f :: f in CollectItem(it) <==> f in it && !Blank(it[f])
    ensures forall f :: f in CollectItem(it) ==> CollectItem(it)[f] == it[f]
  {
    TrimEmptyIffBlankAll();
  }

  /** getSectionData keeps an item when `Object.keys(item).length > 0`,
      that is, when some control holds more than white space. */
  predicate Kept(it: Item) {
    exists f :: f in it && Trim(it[f]) != ""
  }

  lemma KeptIff(it: Item)
    ensures Kept(it) <==> CollectItem(it) != map[]
  {
    if Kept(it) {
      var f :| f in it && Trim(it[f]) != "";
      assert f in CollectItem(it);
    }
  }

  /** getSectionData from position `i` on: collect every item, drop those
      with no field left. */
  function SectionDataFrom(items: seq<Item>, i: nat): seq<Item>
    requires i <= |items|
    decreases |items| - i
  {
    if i == |items| then []
    else
      (if Kept(items[i]) then [CollectItem(items[i])] else []) + SectionDataFrom(items, i + 1)
  }

  /** getSectionData over a whole container. */
  function SectionData(items: seq<Item>): seq<Item>
  {
    SectionDataFrom(items, 0)
  }

  /** The positions, from `i` on, of the items getSectionData keeps. */
  function KeptFrom(items: seq<Item>, i: nat): seq<nat>
    requires i <= |items|
    decreases |items| - i
  {
    if i == |items| then []
    else (if Kept(items[i]) then [i] else []) + KeptFrom(items, i + 1)
  }

  function KeptIndices(items: seq<Item>): seq<nat>
  {
    KeptFrom(items, 0)
  }

  lemma {:induction false} SectionDataFromKeepsOrder(items: seq<Item>, i: nat)
    requires i <= |items|
    decreases |items| - i
    ensures |SectionDataFrom(items, i)| == |KeptFrom(items, i)|
    ensures forall j :: 0 <= j < |KeptFrom(items, i)| ==>
              i <= KeptFrom(items, i)[j] < |items| &&
              SectionDataFrom(items, i)[j] == CollectItem(items[KeptFrom(items, i)[j]])
  {
    if i < |items| {
      SectionDataFromKeepsOrder(items, i + 1);
      var ks := KeptFrom(items, i + 1);
      var ds := SectionDataFrom(items, i + 1);
      if Kept(items[i]) {
        assert KeptFrom(items, i) == [i] + ks;
        assert SectionDataFrom(items, i) == [CollectItem(items[i])] + ds;
      } else {
        assert KeptFrom(items, i) == ks;
        assert SectionDataFrom(items, i) == ds;
      }
    }
  }

  /** getSectionData keeps section order: its j-th item is the collected
      form of the item at the j-th kept position. */
  lemma SectionDataKeepsOrder(items: seq<Item>)
    ensures |SectionData(items)| == |KeptIndices(items)|
    ensures forall j :: 0 <= j < |KeptIndices(items)| ==>
              KeptIndices(items)[j] < |items| &&
              SectionData(items)[j] == CollectItem(items[KeptIndices(items)[j]])
  {
    SectionDataFromKeepsOrder(items, 0);
  }

  lemma {:induction false} KeptFromBounds(items: seq<Item>, i: nat)
    requires i <= |items|
    decreases |items| - i
    ensures forall j :: 0 <= j < |KeptFrom(items, i)| ==> i <= KeptFrom(items, i)[j] < |items|
  {
    if i < |items| {
      KeptFromBounds(items, i + 1);
    }
  }

  lemma {:induction false} KeptFromIncreasing(items: seq<Item>, i: nat)
    requires i <= |items|
    decreases |items| - i
    ensures forall j, j' :: 0 <= j < j' < |KeptFrom(items, i)| ==> KeptFrom(items, i)[j] < KeptFrom(items, i)[j']
  {
    if i < |items| {
      KeptFromIncreasing(items, i + 1);
      KeptFromBounds(items, i + 1);
      var ks := KeptFrom(items, i + 1);
      if Kept(items[i]) {
        assert KeptFrom(items, i) == [i] + ks;
      }
    }
  }

  lemma {:induction false} KeptFromMembers(items: seq<Item>, i: nat)
    requires i <= |items|
    decreases |items| - i
    ensures forall k :: i <= k < |items| ==> (k in KeptFrom(items, i) <==> Kept(items[k]))
  {
    if i < |items| {
      KeptFromMembers(items, i + 1);
      KeptFromBounds(items, i + 1);
      var ks := KeptFrom(items, i + 1);
      assert i !in ks;
      if Kept(items[i]) {
        assert KeptFrom(items, i) == [i] + ks;
      }
    }
  }

  /** The kept positions increase, and they are exactly the items with
      some non-blank field. */
  lemma KeptIndicesExact(items: seq<Item>)
    ensures forall j, j' :: 0 <= j < j' < |KeptIndices(items)| ==> KeptIndices(items)[j] < KeptIndices(items)[j']
    ensures forall i :: 0 <= i < |items| ==> (i in KeptIndices(items) <==> CollectItem(items[i]) != map[])
  {
    KeptFromIncreasing(items, 0);
    KeptFromMembers(items, 0);
    forall i | 0 <= i < |items| ensures Kept(items[i]) <==> CollectItem(items[i]) != map[] {
      KeptIff(items[i]);
    }
  }

  /** Every item getSectionData returns has at least one field, and each
      field holds a value with a non-white-space character. */
  lemma SectionDataItemsNonEmpty(items: seq<Item>)
    ensures forall j :: 0 <= j < |SectionData(items)| ==> SectionData(items)[j] != map[]
    ensures forall j, f :: 0 <= j < |SectionData(items)| && f in SectionData(items)[j] ==> !Blank(SectionData(items)[j][f])
  {
    SectionDataKeepsOrder(items);
    KeptIndicesExact(items);
    forall j | 0 <= j < |SectionData(items)|
      ensures SectionData(items)[j] != map[]
      ensures forall f :: f in SectionData(items)[j] ==> !Blank(SectionData(items)[j][f])
    {
      var k := KeptIndices(items)[j];
      assert k in KeptIndices(items);
      CollectItemKeepsNonBlank(items[k]);
    }
  }

  /** An item as the plain object getSectionData builds. */
  function ItemValue(it: Item): Value
  {
    Obj(map f | f in it :: Str(it[f]))
  }

  function ItemValues(items: seq<Item>): seq<Value>
  {
    seq(|items|, j requires 0 <= j < |items| => ItemValue(items[j]))
  }

  /** The scalar part of getFormData: each FormData entry whose trimmed
      value is non-empty, a later entry overwriting an earlier one of the
      same name. */
  function EntriesData(entries: seq<(string, string)>): Data
  {
    if entries == [] then map[]
    else
      var d := EntriesData(entries[..|entries| - 1]);
      var e := entries[|entries| - 1];
      if Trim(e.1) != "" then d[e.0 := Str(e.1)] else d
  }

  /** A name is in the scalar part exactly when some entry of that name is
      non-blank, and it then holds the value of the last such entry. */
  lemma {:induction false} EntriesDataLastWins(entries: seq<(string, string)>, k: string)
    ensures k in EntriesData(entries) <==> exists i :: 0 <= i < |entries| && entries[i].0 == k && !Blank(entries[i].1)
    ensures k in EntriesData(entries) ==>
              exists i :: 0 <= i < |entries| && entries[i].0 == k && !Blank(entries[i].1) &&
                EntriesData(entries)[k] == Str(entries[i].1) &&
                forall i' :: i < i' < |entries| && entries[i'].0 == k ==> Blank(entries[i'].1)
    decreases |entries|
  {
    if entries != [] {
      var n := |entries| - 1;
      var front := entries[..n];
      EntriesDataLastWins(front, k);
      TrimEmptyIffBlank(entries[n].1);
      assert forall i :: 0 <= i < n ==> entries[i] == front[i];
    }
  }

  /** The containers as a whole: one list of items per section. */
  type Containers = map<Section, seq<Item>>

  predicate WellFormedContainers(c: Containers) {
    (forall s :: s in c) &&
    forall s, i :: 0 <= i < |c[s]| ==> WellFormedItem(s, c[s][i])
  }

  /** Every section with no item. */
  function EmptyContainers(): (c: Containers)
    ensures forall s :: s in c && c[s] == []
  {
    AllSectionsComplete();
    map s | s in AllSections :: []
  }

  lemma EmptyContainersWellFormed()
    ensures WellFormedContainers(EmptyContainers())
  {
  }

  /** Replacing one section's items by well-formed items keeps the
      containers well-formed. */
  lemma ReplaceKeepsWellFormed(c: Containers, s: Section, items: seq<Item>)
    requires WellFormedContainers(c)
    requires forall i :: 0 <= i < |items| ==> WellFormedItem(s, items[i])
    ensures WellFormedContainers(c[s := items])
  {
  }

  /** Appending a well-formed item keeps the containers well-formed. */
  lemma AppendKeepsWellFormed(c: Containers, s: Section, it: Item)
    requires WellFormedContainers(c) && WellFormedItem(s, it)
    ensures WellFormedContainers(c[s := c[s] + [it]])
  {
    ReplaceKeepsWellFormed(c, s, c[s] + [it]);
  }

  /** Editing one control of an item, with a value its control can hold,
      keeps the containers well-formed. */
  lemma EditKeepsWellFormed(c: Containers, s: Section, i: nat, f: string, value: string)
    requires WellFormedContainers(c) && i < |c[s]| && f in SchemaKeys(s)
    requires IsSelect(s, f) ==> value in ProficiencyOptions
    ensures WellFormedContainers(c[s := c[s][i := c[s][i][f := value]]])
  {
    var it := c[s][i][f := value];
    assert WellFormedItem(s, it);
    ReplaceKeepsWellFormed(c, s, c[s][i := it]);
  }

  /** Every container with a blank item appended (initializeSections). */
  function WithBlanks(c: Containers): Containers
  {
    map s | s in c :: c[s] + [BlankItem(s)]
  }

  /** After initializeSections every section holds its old items followed
      by a blank one. */
  lemma WithBlanksAppends(c: Containers)
    requires forall s :: s in c
    ensures forall s :: s in WithBlanks(c) && WithBlanks(c)[s] == c[s] + [BlankItem(s)]
  {
  }

  /** Containers that gained exactly one blank item per section are
      WithBlanks of the old ones. */
  lemma WithBlanksOf(c0: Containers, c: Containers)
    requires (forall s :: s in c0) && (forall s :: s in c)
    requires forall s :: c[s] == c0[s] + [BlankItem(s)]
    ensures c == WithBlanks(c0)
  {
  }

  /** Index is the inverse of indexing AllSections. */
  lemma IndexInverse(k: nat)
    requires k < |AllSections|
    ensures Index(AllSections[k]) == k
  {
  }

  /** One step of initializeSections: after an item `extra(s)` has been
      appended to each section s before t, appending one to t covers t as
      well. */
  lemma AppendBlankStep<T>(c0: map<Section, seq<T>>, c: map<Section, seq<T>>, t: Section, extra: Section -> T)
    requires (forall s :: s in c0) && (forall s :: s in c)
    requires forall s :: c[s] == c0[s] + (if Index(s) < Index(t) then [extra(s)] else [])
    ensures forall s :: c[t := c[t] + [extra(t)]][s] == c0[s] + (if Index(s) <= Index(t) then [extra(s)] else [])
  {
    forall s ensures c[t := c[t] + [extra(t)]][s] == c0[s] + (if Index(s) <= Index(t) then [extra(s)] else []) {
      if s != t {
        assert Index(s) != Index(t);
      }
    }
  }

  /** An object with one property per section, named by the section's
      key. */
  function ByKey(vals: map<Section, Value>): (d: Data)
    requires forall s :: s in vals
    ensures forall s :: Key(s) in d && d[Key(s)] == vals[s]
    ensures forall k :: k in d ==> k in SectionKeys
  {
    map[
      "experience" := vals[Experience],
      "education" := vals[Education],
      "skills" := vals[Skills],
      "projects" := vals[Projects],
      "certifications" := vals[Certifications],
      "languages" := vals[Languages]
    ]
  }

  /** getFormData: the scalar entries, then every section key replaced by
      that section's getSectionData. */
  function FormData(entries: seq<(string, string)>, c: Containers): (d: Data)
    requires forall s :: s in c
    ensures forall s :: Key(s) in d && d[Key(s)] == List(ItemValues(SectionData(c[s])))
    ensures forall k :: k !in SectionKeys ==> (k in d <==> k in EntriesData(entries))
    ensures forall k :: k !in SectionKeys && k in d ==> d[k] == EntriesData(entries)[k]
  {
    EntriesData(entries) + ByKey(map s | s in c :: List(ItemValues(SectionData(c[s]))))
  }

  // ---------------------------------------------------------------------
  // Filling items from the record (populateForm)
  // ---------------------------------------------------------------------

  /** The project URL control is an `<input type="url">`. */
  predicate IsUrl(s: Section, f: string) {
    s == Projects && f == "url"
  }

  /** The description controls are `<textarea>`s. */
  predicate IsTextarea(s: Section, f: string) {
    f == "description" && (s == Experience || s == Education || s == Projects)
  }

  /** Line feed and carriage return. */
  predicate IsNewline(c: char) {
    c == '\n' || c == '\r'
  }

  predicate NoNewline(t: string) {
    forall i :: 0 <= i < |t| ==> !IsNewline(t[i])
  }

  predicate NoReturn(t: string) {
    forall i :: 0 <= i < |t| ==> t[i] != '\r'
  }

  /** "Strip newlines" of the HTML standard, the value sanitization of a
      text input: every line feed and carriage return is removed. */
  function StripNewlines(t: string): (r: string)
    ensures NoNewline(r)
    ensures NoNewline(t) ==> r == t
  {
    if t == [] then []
    else
      assert NoNewline(t) ==> NoNewline(t[1..]) by {
        assert forall i :: 1 <= i < |t| ==> t[1..][i - 1] == t[i];
      }
      (if IsNewline(t[0]) then "" else [t[0]]) + StripNewlines(t[1..])
  }

  /** Newlines are stripped piece by piece, and a newline on its own
      leaves nothing. */
  lemma {:induction false} StripNewlinesPieces(a: string, b: string)
    ensures StripNewlines(a + b) == StripNewlines(a) + StripNewlines(b)
    ensures |a| == 1 && IsNewline(a[0]) ==> StripNewlines(a) == ""
  {
    if a != [] {
      assert (a + b)[0] == a[0] && (a + b)[1..] == a[1..] + b;
      StripNewlinesPieces(a[1..], b);
      var head := if IsNewline(a[0]) then "" else [a[0]];
      assert StripNewlines(a + b) == head + StripNewlines(a[1..] + b);
      assert StripNewlines(a) == head + StripNewlines(a[1..]);
      assert head + (StripNewlines(a[1..]) + StripNewlines(b)) == (head + StripNewlines(a[1..])) + StripNewlines(b);
    } else {
      assert a + b == b;
    }
  }

  /** "Normalize newlines" of the HTML standard, which a textarea's value
      goes through: every CR LF pair, and every other CR, becomes one LF. */
  function NormalizeNewlines(t: string): (r: string)
    ensures NoReturn(r)
    ensures NoReturn(t) ==> r == t
    decreases |t|
  {
    if t == [] then []
    else if t[0] == '\r' then "\n" + NormalizeNewlines(if |t| > 1 && t[1] == '\n' then t[2..] else t[1..])
    else
      assert NoReturn(t) ==> NoReturn(t[1..]) by {
        assert forall i :: 1 <= i < |t| ==> t[1..][i - 1] == t[i];
      }
      [t[0]] + NormalizeNewlines(t[1..])
  }

  /** What follows a leading carriage return, and the line feed that
      pairs with it. */
  function AfterReturn(t: string): string
    requires t != [] && t[0] == '\r'
  {
    if |t| > 1 && t[1] == '\n' then t[2..] else t[1..]
  }

  /** A leading CR or CRLF vanishes once newlines are stripped. */
  lemma ReturnStripped(t: string)
    requires t != [] && t[0] == '\r'
    ensures StripNewlines(t) == StripNewlines(AfterReturn(t))
  {
    var rest := AfterReturn(t);
    if |t| > 1 && t[1] == '\n' {
      assert t == [t[0]] + ([t[1]] + rest);
      StripNewlinesPieces([t[0]], [t[1]] + rest);
      StripNewlinesPieces([t[1]], rest);
    } else {
      assert t == [t[0]] + rest;
      StripNewlinesPieces([t[0]], rest);
    }
  }

  /** So does the line feed it is normalized to. */
  lemma ReturnStep(t: string)
    requires t != [] && t[0] == '\r'
    ensures StripNewlines(NormalizeNewlines(t)) == StripNewlines(NormalizeNewlines(AfterReturn(t)))
    ensures StripNewlines(t) == StripNewlines(AfterReturn(t))
  {
    assert NormalizeNewlines(t) == "\n" + NormalizeNewlines(AfterReturn(t));
    StripNewlinesPieces("\n", NormalizeNewlines(AfterReturn(t)));
    ReturnStripped(t);
  }

  /** Normalizing changes only line breaks: with the newlines stripped,
      the text before and after is the same. */
  lemma {:induction false} NormalizeKeepsText(t: string)
    ensures StripNewlines(NormalizeNewlines(t)) == StripNewlines(t)
    decreases |t|
  {
    if t != [] {
      if t[0] == '\r' {
        ReturnStep(t);
        NormalizeKeepsText(AfterReturn(t));
      } else {
        NormalizeKeepsText(t[1..]);
        assert t == [t[0]] + t[1..];
        StripNewlinesPieces([t[0]], NormalizeNewlines(t[1..]));
        StripNewlinesPieces([t[0]], t[1..]);
      }
    }
  }

  /** ASCII whitespace as the HTML standard defines it: tab, line feed,
      form feed, carriage return and space. */
  predicate IsAsciiWhitespace(c: char) {
    var n := c as int;
    n == 0x09 || n == 0x0A || n == 0x0C || n == 0x0D || n == 0x20
  }

  /** `t` has no ASCII whitespace at either end. */
  predicate CleanEnds(t: string) {
    t == "" || (!IsAsciiWhitespace(t[0]) && !IsAsciiWhitespace(t[|t| - 1]))
  }

  function StripLeadingAscii(t: string): (r: string)
    ensures |r| <= |t| && r == t[|t| - |r|..]
    ensures forall k :: 0 <= k < |t| - |r| ==> IsAsciiWhitespace(t[k])
    ensures r == "" || !IsAsciiWhitespace(r[0])
  {
    if t != [] && IsAsciiWhitespace(t[0]) then StripLeadingAscii(t[1..]) else t
  }

  function StripTrailingAscii(t: string): (r: string)
    ensures |r| <= |t| && r == t[..|r|]
    ensures forall k :: |r| <= k < |t| ==> IsAsciiWhitespace(t[k])
    ensures r == "" || !IsAsciiWhitespace(r[|r| - 1])
  {
    if t != [] && IsAsciiWhitespace(t[|t| - 1]) then StripTrailingAscii(t[..|t| - 1]) else t
  }

  /** "Strip leading and trailing ASCII whitespace" of the HTML standard. */
  function StripAsciiWhitespace(t: string): (r: string)
    ensures CleanEnds(r)
    ensures CleanEnds(t) ==> r == t
  {
    var lead := StripLeadingAscii(t);
    if lead == "" then ""
    else
      StripTrailingKeepsHead(lead);
      StripTrailingAscii(lead)
  }

  /** The number of ASCII whitespace characters `t` starts with. */
  function LeadingWidth(t: string): (n: nat)
    ensures n <= |t|
  {
    |t| - |StripLeadingAscii(t)|
  }

  /** What the strip keeps is a slice of the text after its leading
      whitespace. */
  lemma StripIsSlice(t: string)
    ensures var r, i := StripAsciiWhitespace(t), LeadingWidth(t);
            i + |r| <= |t| && r == t[i..i + |r|]
  {
    var lead := StripLeadingAscii(t);
    var i := |t| - |lead|;
    if lead != "" {
      var r := StripTrailingAscii(lead);
      assert StripAsciiWhitespace(t) == r == lead[..|r|];
      assert lead[..|r|] == t[i..i + |r|];
    }
  }

  /** What follows the kept slice is whitespace. */
  lemma StripDropsTail(t: string)
    ensures var r, i := StripAsciiWhitespace(t), LeadingWidth(t);
            forall k :: i + |r| <= k < |t| ==> IsAsciiWhitespace(t[k])
  {
    var lead := StripLeadingAscii(t);
    var i := |t| - |lead|;
    if lead != "" {
      var r := StripTrailingAscii(lead);
      assert StripAsciiWhitespace(t) == r;
      forall k | i + |r| <= k < |t| ensures IsAsciiWhitespace(t[k]) {
        assert t[k] == lead[k - i];
      }
    }
  }

  /** The strip keeps the middle of the text and takes off exactly the
      surrounding whitespace: the result is the slice of `t` after its
      leading whitespace, and what follows that slice is whitespace too. */
  lemma StripAsciiWhitespaceExact(t: string)
    ensures var r, i := StripAsciiWhitespace(t), LeadingWidth(t);
            i + |r| <= |t| && r == t[i..i + |r|] &&
            (forall k :: 0 <= k < i ==> IsAsciiWhitespace(t[k])) &&
            (forall k :: i + |r| <= k < |t| ==> IsAsciiWhitespace(t[k]))
  {
    StripIsSlice(t);
    StripDropsTail(t);
  }

  lemma {:induction false} StripTrailingKeepsHead(t: string)
    requires t != [] && !IsAsciiWhitespace(t[0])
    ensures StripTrailingAscii(t) != "" && StripTrailingAscii(t)[0] == t[0]
  {
    if IsAsciiWhitespace(t[|t| - 1]) {
      StripTrailingKeepsHead(t[..|t| - 1]);
    }
  }

  lemma BlankAppend(a: string, b: string)
    ensures Blank(a + b) <==> Blank(a) && Blank(b)
  {
    assert forall i :: 0 <= i < |a| ==> (a + b)[i] == a[i];
    assert forall i :: 0 <= i < |b| ==> (a + b)[|a| + i] == b[i];
  }

  /** Stripping newlines removes only white space, so the text is blank
      after it exactly when it was blank before. */
  lemma {:induction false} StripNewlinesKeepsBlank(t: string)
    ensures Blank(StripNewlines(t)) <==> Blank(t)
  {
    if t != [] {
      StripNewlinesKeepsBlank(t[1..]);
      BlankAppend([t[0]], t[1..]);
      assert t == [t[0]] + t[1..];
      BlankAppend(if IsNewline(t[0]) then "" else [t[0]], StripNewlines(t[1..]));
    }
  }

  /** Normalizing turns line breaks into line breaks, so blankness is
      kept. */
  lemma {:induction false} NormalizeKeepsBlank(t: string)
    ensures Blank(NormalizeNewlines(t)) <==> Blank(t)
    decreases |t|
  {
    if t != [] {
      var pair := t[0] == '\r' && |t| > 1 && t[1] == '\n';
      var head, rest := if pair then t[..2] else t[..1], if pair then t[2..] else t[1..];
      NormalizeKeepsBlank(rest);
      assert t == head + rest;
      BlankAppend(head, rest);
      if t[0] == '\r' {
        BlankAppend("\n", NormalizeNewlines(rest));
      } else {
        BlankAppend([t[0]], NormalizeNewlines(rest));
      }
    }
  }

  /** The url strip removes only white space: blankness is kept. */
  lemma StripKeepsBlank(t: string)
    ensures Blank(StripAsciiWhitespace(t)) <==> Blank(t)
  {
    StripAsciiWhitespaceExact(t);
    var r, i := StripAsciiWhitespace(t), LeadingWidth(t);
    assert forall k :: 0 <= k < |r| ==> r[k] == t[i + k];
    if Blank(r) {
      forall k | 0 <= k < |t| ensures IsJsSpace(t[k]) {
        if i <= k < i + |r| { assert t[k] == r[k - i]; }
      }
    }
  }

  /** A control's sanitization keeps blankness, except that a select
      given no option of its own reads ''. */
  lemma ControlTextKeepsBlank(s: Section, f: string, text: string)
    requires IsSelect(s, f) ==> text in ProficiencyOptions
    ensures Blank(ControlText(s, f, text)) <==> Blank(text)
  {
    if IsUrl(s, f) {
      StripNewlinesKeepsBlank(text);
      StripKeepsBlank(StripNewlines(text));
    } else if IsTextarea(s, f) {
      NormalizeKeepsBlank(text);
    } else if !IsSelect(s, f) {
      StripNewlinesKeepsBlank(text);
    }
  }

  /** The sanitization of the url control: newlines stripped, then the
      surrounding ASCII whitespace. */
  function UrlValue(t: string): string
  {
    StripAsciiWhitespace(StripNewlines(t))
  }

  /** What an item control reads back after its value is set to `text`:
      a select given a value that is none of its options selects nothing
      and reads ''; the url control, a textarea and a text input apply
      their value sanitization. */
  function ControlText(s: Section, f: string, text: string): (t: string)
    ensures IsSelect(s, f) ==> t in ProficiencyOptions
    ensures IsTextarea(s, f) ==> NoReturn(t)
    ensures !IsTextarea(s, f) ==> NoNewline(t)
    ensures IsUrl(s, f) ==> CleanEnds(t)
    ensures Clean(s, f, text) ==> t == text
  {
    if IsSelect(s, f) then (if text in ProficiencyOptions then text else "")
    else if IsUrl(s, f) then UrlValue(text)
    else if IsTextarea(s, f) then NormalizeNewlines(text)
    else StripNewlines(text)
  }

  /** Text that a control holds as given: an option of the select, no
      carriage return in a textarea, no line break elsewhere, and no
      surrounding whitespace in the url control. */
  predicate Clean(s: Section, f: string, text: string) {
    (IsSelect(s, f) ==> text in ProficiencyOptions) &&
    (IsTextarea(s, f) ==> NoReturn(text)) &&
    (!IsTextarea(s, f) ==> NoNewline(text)) &&
    (IsUrl(s, f) ==> CleanEnds(text))
  }

  /** What a control reads after `input.value = v`: null becomes '', other
      values their text, which the control then sanitizes. */
  function AssignedText(s: Section, f: string, v: Value): (t: string)
    ensures IsSelect(s, f) ==> t in ProficiencyOptions
    ensures v.Null? ==> t == ""
    ensures v.Str? && Clean(s, f, v.s) ==> t == v.s
  {
    ControlText(s, f, if v.Null? then "" else ToText(v))
  }

  /** A blank item filled from one array element: for an object, each
      control whose name is one of the element's keys; other elements
      (strings, booleans, arrays) have only index keys and fill nothing. */
  function FillItem(s: Section, v: Value): (it: Item)
    requires !v.Null?
    ensures WellFormedItem(s, it)
    ensures forall f :: f in Schema(s) && !(v.Obj? && f in v.fields) ==> it[f] == ""
    ensures forall f :: f in Schema(s) && v.Obj? && f in v.fields ==> it[f] == AssignedText(s, f, v.fields[f])
  {
    match v
    case Obj(m) => map f | f in Schema(s) :: if f in m then AssignedText(s, f, m[f]) else ""
    case _ => BlankItem(s)
  }

  /** The items built for an array, in order, up to a null element: there
      the blank item is already inserted when Object.keys(null) throws. */
  function FillList(s: Section, xs: seq<Value>): (r: (seq<Item>, bool))
  {
    if xs == [] then ([], true)
    else if xs[0].Null? then ([BlankItem(s)], false)
    else
      var rest := FillList(s, xs[1..]);
      ([FillItem(s, xs[0])] + rest.0, rest.1)
  }

  /** One section of populateForm: the container's new items and whether
      it finished without throwing. `this.resumeData[section] || []` turns
      a missing or falsy value into []; a truthy non-array has no forEach
      and throws after the container was cleared; an empty result gets one
      blank item. */
  function FillSection(s: Section, v: Option<Value>): (Result: (seq<Item>, bool))
  {
    if !Present(v) then ([BlankItem(s)], true)
    else if !v.value.List? then ([], false)
    else
      var r := FillList(s, v.value.items);
      if r.1 && |v.value.items| == 0 then ([BlankItem(s)], true) else r
  }

  /** A section's value populates without throwing exactly when it is
      missing, falsy, or an array without null elements. */
  predicate Populates(v: Option<Value>) {
    !Present(v) || (v.value.List? && forall i :: 0 <= i < |v.value.items| ==> !v.value.items[i].Null?)
  }

  lemma {:induction false} FillListFacts(s: Section, xs: seq<Value>)
    ensures FillList(s, xs).1 <==> forall i :: 0 <= i < |xs| ==> !xs[i].Null?
    ensures FillList(s, xs).1 ==> |FillList(s, xs).0| == |xs|
    ensures FillList(s, xs).1 ==> forall i :: 0 <= i < |xs| ==> FillList(s, xs).0[i] == FillItem(s, xs[i])
    ensures forall i :: 0 <= i < |FillList(s, xs).0| ==> WellFormedItem(s, FillList(s, xs).0[i])
  {
    if xs != [] && !xs[0].Null? {
      FillListFacts(s, xs[1..]);
      var r := FillList(s, xs);
      assert forall i :: 1 <= i < |xs| ==> xs[i] == xs[1..][i - 1];
      if r.1 {
        forall i | 0 <= i < |xs| ensures r.0[i] == FillItem(s, xs[i]) {
          if i > 0 { assert r.0[i] == FillList(s, xs[1..]).0[i - 1]; }
        }
      }
    }
  }

  /** After populating a section, it holds max(1, n) items for an n-element
      array, the i-th filled from the i-th element; only schema controls
      exist, so keys outside the schema are ignored. */
  lemma PopulateSectionShape(s: Section, v: Option<Value>)
    ensures FillSection(s, v).1 <==> Populates(v)
    ensures Populates(v) && Present(v) && |v.value.items| > 0 ==>
              |FillSection(s, v).0| == |v.value.items| &&
              forall i :: 0 <= i < |v.value.items| ==> FillSection(s, v).0[i] == FillItem(s, v.value.items[i])
    ensures Populates(v) && (!Present(v) || |v.value.items| == 0) ==> FillSection(s, v).0 == [BlankItem(s)]
    ensures forall i :: 0 <= i < |FillSection(s, v).0| ==> WellFormedItem(s, FillSection(s, v).0[i])
  {
    if Present(v) && v.value.List? {
      FillListFacts(s, v.value.items);
    }
  }

  /** A section that populates ends with at least one item; one that
      throws can be left with none (a truthy non-array value). */
  lemma PopulateFloor(s: Section, v: Option<Value>)
    ensures Populates(v) ==> |FillSection(s, v).0| >= 1
    ensures FillSection(s, Some(Str("x"))).0 == []
  {
    PopulateSectionShape(s, v);
  }

  /** Filling an item from a string-valued object and reading it back with
      getSectionData's collection keeps exactly the schema fields that are
      non-blank (outside the proficiency select, whose value must be one of
      its options). */
  lemma FillThenCollect(s: Section, m: map<string, Value>)
    requires forall f :: f in m ==> m[f].Str?
    requires s == Languages && "proficiency" in m ==> m["proficiency"].s in ProficiencyOptions
    ensures forall f :: f in CollectItem(FillItem(s, Obj(m))) <==> f in Schema(s) && f in m && !Blank(m[f].s)
    ensures forall f :: f in CollectItem(FillItem(s, Obj(m))) ==> CollectItem(FillItem(s, Obj(m)))[f] == ControlText(s, f, m[f].s)
    ensures forall f :: f in CollectItem(FillItem(s, Obj(m))) && Clean(s, f, m[f].s) ==> CollectItem(FillItem(s, Obj(m)))[f] == m[f].s
  {
    var it := FillItem(s, Obj(m));
    CollectItemKeepsNonBlank(it);
    forall f | f in it
      ensures it[f] == if f !in m then "" else ControlText(s, f, m[f].s)
      ensures Blank(it[f]) <==> f !in m || Blank(m[f].s)
    {
      if f in m {
        assert it[f] == AssignedText(s, f, m[f]);
        ControlTextKeepsBlank(s, f, m[f].s);
      }
    }
  }

  /** The sections loop of populateForm over `ss`, in order: each
      container gets FillSection's items, and the loop stops at the first
      section that throws (its container already replaced). */
  function FillSections(c: Containers, d: Data, ss: seq<Section>): (r: (Containers, bool))
    decreases |ss|
  {
    if ss == [] then (c, true)
    else
      var filled := FillSection(ss[0], Field(d, Key(ss[0])));
      var c' := c[ss[0] := filled.0];
      if !filled.1 then (c', false) else FillSections(c', d, ss[1..])
  }

  /** One turn of the loop over `ss`, at position k. */
  lemma FillSectionsStep(c: Containers, d: Data, ss: seq<Section>, k: nat)
    requires k < |ss|
    ensures var filled := FillSection(ss[k], Field(d, Key(ss[k])));
            FillSections(c, d, ss[k..]) ==
              if filled.1 then FillSections(c[ss[k] := filled.0], d, ss[k + 1..]) else (c[ss[k] := filled.0], false)
  {
    assert ss[k..][0] == ss[k] && ss[k..][1..] == ss[k + 1..];
  }

  /** The loop replaces only the containers of `ss`, and keeps the
      containers well-formed whether or not it finishes. */
  lemma {:induction false} FillSectionsFrame(c: Containers, d: Data, ss: seq<Section>)
    ensures c.Keys <= FillSections(c, d, ss).0.Keys <= c.Keys + set s | s in ss
    ensures forall s :: s in c && s !in ss ==> FillSections(c, d, ss).0[s] == c[s]
    ensures WellFormedContainers(c) ==> WellFormedContainers(FillSections(c, d, ss).0)
    decreases |ss|
  {
    if ss != [] {
      var filled := FillSection(ss[0], Field(d, Key(ss[0])));
      var c' := c[ss[0] := filled.0];
      PopulateSectionShape(ss[0], Field(d, Key(ss[0])));
      if filled.1 {
        FillSectionsFrame(c', d, ss[1..]);
        assert forall s :: s in ss <==> s == ss[0] || s in ss[1..];
      }
    }
  }

  /** The loop finishes exactly when every section populates. */
  lemma {:induction false} FillSectionsOkIff(c: Containers, d: Data, ss: seq<Section>)
    ensures FillSections(c, d, ss).1 <==> forall i :: 0 <= i < |ss| ==> Populates(Field(d, Key(ss[i])))
    decreases |ss|
  {
    if ss != [] {
      var filled := FillSection(ss[0], Field(d, Key(ss[0])));
      PopulateSectionShape(ss[0], Field(d, Key(ss[0])));
      FillSectionsOkIff(c[ss[0] := filled.0], d, ss[1..]);
      assert forall i :: 1 <= i < |ss| ==> ss[i] == ss[1..][i - 1];
    }
  }

  /** A loop that finishes leaves each section of `ss` with FillSection's
      items. */
  lemma {:induction false} FillSectionsContent(c: Containers, d: Data, ss: seq<Section>)
    requires forall i, j :: 0 <= i < j < |ss| ==> ss[i] != ss[j]
    requires FillSections(c, d, ss).1
    ensures forall i :: 0 <= i < |ss| ==>
              ss[i] in FillSections(c, d, ss).0 &&
              FillSections(c, d, ss).0[ss[i]] == FillSection(ss[i], Field(d, Key(ss[i]))).0
    decreases |ss|
  {
    if ss != [] {
      var filled := FillSection(ss[0], Field(d, Key(ss[0])));
      var c' := c[ss[0] := filled.0];
      FillSectionsContent(c', d, ss[1..]);
      FillSectionsFrame(c', d, ss[1..]);
      assert ss[0] !in ss[1..];
      assert forall i :: 1 <= i < |ss| ==> ss[i] == ss[1..][i - 1];
    }
  }

  /** When every section populates, every container of `ss` ends with at
      least one item. */
  lemma FillSectionsFloor(c: Containers, d: Data, ss: seq<Section>)
    requires forall i, j :: 0 <= i < j < |ss| ==> ss[i] != ss[j]
    requires FillSections(c, d, ss).1
    ensures forall i :: 0 <= i < |ss| ==> ss[i] in FillSections(c, d, ss).0 && |FillSections(c, d, ss).0[ss[i]]| >= 1
  {
    FillSectionsContent(c, d, ss);
    FillSectionsOkIff(c, d, ss);
    forall i | 0 <= i < |ss| ensures |FillSection(ss[i], Field(d, Key(ss[i]))).0| >= 1 {
      PopulateFloor(ss[i], Field(d, Key(ss[i])));
    }
  }

  // ---------------------------------------------------------------------
  // List operations on one container
  // ---------------------------------------------------------------------

  /** removeSectionItem: the item goes only when the container has more
      than one; otherwise the list is unchanged (and a warning is shown). */
  function Removed(items: seq<Item>, i: nat): seq<Item>
    requires i < |items|
  {
    if |items| > 1 then items[..i] + items[i + 1..] else items
  }

  /** Removing never takes a non-empty container below one item, takes
      exactly one item away otherwise, and keeps the other items. */
  lemma RemoveKeepsFloor(items: seq<Item>, i: nat)
    requires i < |items|
    ensures |Removed(items, i)| >= 1
    ensures |items| <= 1 ==> Removed(items, i) == items
    ensures |items| > 1 ==> (|Removed(items, i)| == |items| - 1 &&
              multiset(Removed(items, i)) + multiset{items[i]} == multiset(items))
  {
    if |items| > 1 {
      var front, back := items[..i], items[i + 1..];
      assert items == front + [items[i]] + back;
      assert multiset(items) == multiset(front) + multiset{items[i]} + multiset(back);
    }
  }

  /** The items before the removed one stay where they were and the
      items after it move up by one. */
  lemma RemoveKeepsOrder(items: seq<Item>, i: nat)
    requires 1 < |items| && i < |items|
    ensures forall k :: 0 <= k < i ==> Removed(items, i)[k] == items[k]
    ensures forall k :: i <= k < |items| - 1 ==> Removed(items, i)[k] == items[k + 1]
  {
  }

  /** `seq` with the element at i taken out and `x` put at position j. */
  function Reinserted(items: seq<Item>, i: nat, j: nat): seq<Item>
    requires i < |items| && j < |items|
  {
    var rest := items[..i] + items[i + 1..];
    rest[..j] + [items[i]] + rest[j..]
  }

  /** moveSectionItem(item, direction) for the item at index i: when
      i + direction is in range the item is re-inserted there (after the
      target when moving down, before it when moving up; both leave it at
      position i + direction); otherwise nothing moves. */
  function Moved(items: seq<Item>, i: nat, direction: int): seq<Item>
    requires i < |items|
  {
    var t := i + direction;
    if 0 <= t < |items| then Reinserted(items, i, t) else items
  }

  /** Removing only keeps items it is given. */
  lemma RemovedFromItems(items: seq<Item>, i: nat)
    requires i < |items|
    ensures forall x :: x in Removed(items, i) ==> x in items
  {
    if |items| > 1 {
      assert forall x :: x in items[..i] ==> x in items;
      assert forall x :: x in items[i + 1..] ==> x in items;
    }
  }

  /** Moving only rearranges the items it is given. */
  lemma MovedFromItems(items: seq<Item>, i: nat, direction: int)
    requires i < |items|
    ensures forall x :: x in Moved(items, i, direction) ==> x in items
  {
    var t := i + direction;
    if 0 <= t < |items| {
      var rest := items[..i] + items[i + 1..];
      RemovedFromItems(items, i);
      assert forall x :: x in rest[..t] ==> x in rest;
      assert forall x :: x in rest[t..] ==> x in rest;
    }
  }

  /** Items taken from a container of well-formed items are well-formed. */
  lemma RearrangedKeepsWellFormed(c: Containers, s: Section, items: seq<Item>)
    requires WellFormedContainers(c)
    requires forall x :: x in items ==> x in c[s]
    ensures WellFormedContainers(c[s := items])
  {
    forall k | 0 <= k < |items| ensures WellFormedItem(s, items[k]) {
      assert items[k] in c[s];
    }
    ReplaceKeepsWellFormed(c, s, items);
  }

  lemma RemoveKeepsWellFormed(c: Containers, s: Section, i: nat)
    requires WellFormedContainers(c) && i < |c[s]|
    ensures WellFormedContainers(c[s := Removed(c[s], i)])
  {
    RemovedFromItems(c[s], i);
    RearrangedKeepsWellFormed(c, s, Removed(c[s], i));
  }

  lemma MoveKeepsWellFormed(c: Containers, s: Section, i: nat, direction: int)
    requires WellFormedContainers(c) && i < |c[s]|
    ensures WellFormedContainers(c[s := Moved(c[s], i, direction)])
  {
    MovedFromItems(c[s], i, direction);
    RearrangedKeepsWellFormed(c, s, Moved(c[s], i, direction));
  }

  /** `items` with the neighbours at lo and lo + 1 traded. */
  function SwappedAt(items: seq<Item>, lo: nat): (r: seq<Item>)
    requires lo + 1 < |items|
    ensures |r| == |items|
    ensures r[lo] == items[lo + 1] && r[lo + 1] == items[lo]
    ensures forall k :: 0 <= k < |r| && k != lo && k != lo + 1 ==> r[k] == items[k]
  {
    items[..lo] + [items[lo + 1], items[lo]] + items[lo + 2..]
  }

  /** A swap keeps the items. */
  lemma SwapKeepsItems(items: seq<Item>, lo: nat)
    requires lo + 1 < |items|
    ensures multiset(SwappedAt(items, lo)) == multiset(items)
  {
    assert items == items[..lo] + [items[lo], items[lo + 1]] + items[lo + 2..];
    assert multiset([items[lo + 1], items[lo]]) == multiset([items[lo], items[lo + 1]]);
  }

  lemma ReinsertDown(items: seq<Item>, i: nat)
    requires i + 1 < |items|
    ensures Reinserted(items, i, i + 1) == SwappedAt(items, i)
  {
    var rest := items[..i] + items[i + 1..];
    assert rest[..i + 1] == items[..i] + [items[i + 1]];
    assert rest[i + 1..] == items[i + 2..];
  }

  lemma ReinsertUp(items: seq<Item>, i: nat)
    requires 0 < i < |items|
    ensures Reinserted(items, i, i - 1) == SwappedAt(items, i - 1)
  {
    var rest := items[..i] + items[i + 1..];
    assert rest[..i - 1] == items[..i - 1];
    assert rest[i - 1..] == [items[i - 1]] + items[i + 1..];
  }

  /** Moving by one swaps the item with its neighbour when that exists and
      is a no-op at the ends; length and items are always preserved. */
  lemma MoveSwapsNeighbours(items: seq<Item>, i: nat, direction: int)
    requires i < |items|
    requires direction == 1 || direction == -1
    ensures |Moved(items, i, direction)| == |items|
    ensures multiset(Moved(items, i, direction)) == multiset(items)
    ensures 0 <= i + direction < |items| ==>
              Moved(items, i, direction) == items[i := items[i + direction]][i + direction := items[i]]
    ensures !(0 <= i + direction < |items|) ==> Moved(items, i, direction) == items
  {
    var t := i + direction;
    if 0 <= t < |items| {
      var lo := if direction == 1 then i else t;
      if direction == 1 { ReinsertDown(items, i); } else { ReinsertUp(items, i); }
      var r := SwappedAt(items, lo);
      SwapKeepsItems(items, lo);
      assert r == items[i := items[t]][t := items[i]];
    }
  }

  /** Trading the same neighbours twice puts them back. */
  lemma SwapTwice(items: seq<Item>, lo: nat)
    requires lo + 1 < |items|
    ensures SwappedAt(SwappedAt(items, lo), lo) == items
  {
    var twice := SwappedAt(SwappedAt(items, lo), lo);
    assert forall k :: 0 <= k < |items| ==> twice[k] == items[k];
  }

  /** Moving down then up (or up then down) puts every item back. */
  lemma MoveThenBack(items: seq<Item>, i: nat, direction: int)
    requires i < |items|
    requires direction == 1 || direction == -1
    requires 0 <= i + direction < |items|
    ensures Moved(Moved(items, i, direction), i + direction, -direction) == items
  {
    var t := i + direction;
    var lo := if direction == 1 then i else t;
    var once := SwappedAt(items, lo);
    if direction == 1 {
      ReinsertDown(items, i);
      assert Moved(items, i, direction) == once;
      ReinsertUp(once, t);
      assert Moved(once, t, -direction) == SwappedAt(once, lo);
    } else {
      ReinsertUp(items, i);
      assert Moved(items, i, direction) == once;
      ReinsertDown(once, t);
      assert Moved(once, t, -direction) == SwappedAt(once, lo);
    }
    SwapTwice(items, lo);
  }
}
