/** The ResumeMaker class with the page abstracted away: the record, the
    template id and accent colour, the form's static text controls and
    its six section containers, the photo preview, the preview markup,
    localStorage as a string map, and the notifications shown so far.
    JSON.parse and JSON.stringify are parameters, as is whether
    localStorage accepts a write. */
module App {
  import opened Wrappers
  import opened JsValues
  import opened Record
  import opened Sections
  import opened Render

  /** The `type` argument of showNotification. */
  datatype Kind = Success | Error | Warning | Info

  datatype Notice = Notice(message: string, kind: Kind)

  const SavedNotice := Notice("Data saved successfully!", Success)
  const SaveFailedNotice := Notice("Error saving data. Storage might be full.", Error)
  const ImportedNotice := Notice("Data imported successfully!", Success)
  const ImportFailedNotice := Notice("Error importing data. Please check the file format.", Error)
  const LastItemNotice := Notice("Cannot remove the last item in a section.", Warning)

  /** The ids (and names) of the form's static text controls. The photo
      control is a file input and is handled apart. */
  const TextControls: seq<string> :=
    ["fullName", "jobTitle", "email", "phone", "location", "website", "linkedin", "summary"]

  /** A control an input or change event can come from: a static text
      control, or the control `field` of item `index` of a section. */
  datatype Control = TextInput(id: string) | ItemInput(section: Section, index: nat, field: string)

  /** The `name` attribute of the control, which is all the handlers look
      at: an item's control has its bare field name. */
  function ControlName(c: Control): string
  {
    match c
    case TextInput(id) => id
    case ItemInput(_, _, field) => field
  }

  /** None of the form's static control ids contains a '.'. */
  lemma TextControlsUndotted()
    ensures forall id :: id in TextControls ==> '.' !in id
  {
  }

  /** None of a section's item control names contains a '.'. */
  lemma SchemaUndotted(s: Section, f: string)
    requires f in Schema(s)
    ensures '.' !in f
  {
  }

  /** `localStorage.getItem(key)`, with a missing key read as '' (both are
      falsy). */
  function Stored(storage: map<string, string>, key: string): string
  {
    if key in storage then storage[key] else ""
  }

  /** localStorage after the three writes of saveToStorage. */
  function SavedStorage(storage: map<string, string>, data: string, template: string, color: string): map<string, string>
  {
    storage["resumeData" := data]["resumeTemplate" := template]["resumeAccentColor" := color]
  }

  /** The first loop of populateForm: each static text control whose key
      holds a truthy value shows that value's text; the others keep
      theirs. */
  function PopulatedInputs(inputs: map<string, string>, d: Data): (r: map<string, string>)
    ensures r.Keys == inputs.Keys
  {
    map id | id in inputs :: if id in d && Truthy(d[id]) then ToText(d[id]) else inputs[id]
  }

  /** The same loop on the photo control: a truthy photo is shown, a falsy
      one leaves the preview as it was. */
  function PopulatedPhoto(photo: Option<string>, d: Data): Option<string>
  {
    if "photo" in d && Truthy(d["photo"]) then Some(ToText(d["photo"])) else photo
  }

  /** The preview, storage and notifications after the import's render
      and save, given them before, whether populating finished, and the
      record, template and colour being rendered. */
  function ImportOutcome(preview0: string, storage0: map<string, string>, notifications0: seq<Notice>, populated: bool,
                         data: Data, template: string, color: string, stringify: Data -> string, fits: bool)
    : (string, map<string, string>, seq<Notice>)
  {
    if populated && ResumeHTML(data, template).Ok? then
      (ResumeHTML(data, template).value,
       if fits then SavedStorage(storage0, stringify(data), template, color) else storage0,
       notifications0 + [if fits then SavedNotice else SaveFailedNotice, ImportedNotice])
    else
      (preview0, storage0, notifications0 + [ImportFailedNotice])
  }

  class ResumeMaker {
    var resumeData: Data
    var currentTemplate: string
    var accentColor: string
    /** The value of each static text control, by id. */
    var inputs: map<string, string>
    /** The photo preview's source while it is displayed. */
    var photoPreview: Option<string>
    /** sectionContainers: the item editors of each section. */
    var containers: Containers
    /** resumePreview.innerHTML */
    var preview: string
    var storage: map<string, string>
    var notifications: seq<Notice>

    /** The record has every key of getDefaultData, every section has a
        container of well-formed items, and the static text controls are
        among the form's. A section may hold no item: populateForm can
        throw after clearing one. */
    predicate Valid()
      reads this`resumeData, this`containers, this`inputs
    {
      HasDefaultKeys(resumeData) &&
      WellFormedContainers(containers) &&
      forall id :: id in inputs ==> id in TextControls
    }

    /** The constructor's own assignments: the default record, template
        and colour, and the page as it is before any call: empty text
        controls, no photo, no section item and no preview. The calls the
        constructor then makes are Initialize. */
    constructor(stored: map<string, string>)
      ensures Valid()
      ensures resumeData == DefaultData() && currentTemplate == "classic" && accentColor == "#2563eb"
      ensures inputs == (map id | id in TextControls :: "") && photoPreview == None
      ensures containers == EmptyContainers() && preview == ""
      ensures storage == stored && notifications == []
    {
      resumeData := DefaultData();
      currentTemplate := "classic";
      accentColor := "#2563eb";
      inputs := map id | id in TextControls :: "";
      photoPreview := None;
      containers := EmptyContainers();
      preview := "";
      storage := stored;
      notifications := [];
      new;
      EmptyContainersWellFormed();
    }

    /** The calls the constructor makes after its own assignments, which
        `new ResumeMaker()` runs in the same step: loadFromStorage, then
        initializeSections, which appends a blank item to every section
        (also after a load that filled them), then the first
        updatePreview. (The autosave timer it starts only calls
        saveToStorage.) */
    method Initialize(parse: string -> Option<Value>)
      requires Valid()
      modifies this`resumeData, this`inputs, this`photoPreview, this`containers, this`currentTemplate, this`accentColor, this`preview
      ensures Valid()
      ensures forall s :: |containers[s]| >= 1 && containers[s][|containers[s]| - 1] == BlankItem(s)
      ensures Stored(storage, "resumeData") == "" ==>
                resumeData == old(resumeData) && forall s :: containers[s] == old(containers)[s] + [BlankItem(s)]
      ensures Stored(storage, "resumeData") == "" ==>
                currentTemplate == (if Stored(storage, "resumeTemplate") != "" then storage["resumeTemplate"] else old(currentTemplate)) &&
                accentColor == (if Stored(storage, "resumeAccentColor") != "" then storage["resumeAccentColor"] else old(accentColor))
      ensures Stored(storage, "resumeData") == "" ==> inputs == old(inputs) && photoPreview == old(photoPreview)
      ensures preview == (if ResumeHTML(resumeData, currentTemplate).Ok? then ResumeHTML(resumeData, currentTemplate).value else old(preview))
    {
      LoadFromStorage(parse);
      ghost var loaded := containers;
      assert Stored(storage, "resumeData") == "" ==>
               resumeData == old(resumeData) && loaded == old(containers) &&
               currentTemplate == (if Stored(storage, "resumeTemplate") != "" then storage["resumeTemplate"] else old(currentTemplate)) &&
               accentColor == (if Stored(storage, "resumeAccentColor") != "" then storage["resumeAccentColor"] else old(accentColor));
      InitializeView();
      WithBlanksAppends(loaded);
    }

    /** The constructor's calls after loadFromStorage: initializeSections,
        then the first updatePreview. */
    method InitializeView()
      requires Valid()
      modifies this`containers, this`preview
      ensures Valid()
      ensures unchanged(this`resumeData, this`inputs, this`photoPreview, this`currentTemplate, this`accentColor, this`storage)
      ensures containers == WithBlanks(old(containers))
      ensures forall s :: |containers[s]| >= 1 && containers[s][|containers[s]| - 1] == BlankItem(s)
      ensures preview == (if ResumeHTML(resumeData, currentTemplate).Ok? then ResumeHTML(resumeData, currentTemplate).value else old(preview))
    {
      InitializeSections();
      var _ := UpdatePreview();
    }

    /** updateData(key, value): a key with a '.' is a path walked from the
        record, any other key is set directly. */
    method UpdateData(key: string, v: Value)
      requires Valid()
      requires '.' in key ==> Walkable(resumeData, Split(key, '.'))
      modifies this`resumeData
      ensures Valid()
      ensures '.' !in key ==> resumeData == old(resumeData)[key := v]
      ensures '.' in key ==> resumeData == SetPath(old(resumeData), Split(key, '.'), v)
    {
      if '.' in key {
        var keys := Split(key, '.');
        SetPathKeys(resumeData, keys, v);
        resumeData := AssignPath(resumeData, keys, v);
      } else {
        resumeData := resumeData[key := v];
      }
    }

    /** updatePreview: the preview shows the rendered record; when rendering
        throws the preview keeps its old markup and `ok` is false. */
    method UpdatePreview() returns (ok: bool)
      requires Valid()
      modifies this`preview
      ensures Valid()
      ensures unchanged(this`resumeData, this`currentTemplate, this`accentColor, this`containers, this`storage)
      ensures ok == ResumeHTML(resumeData, currentTemplate).Ok?
      ensures preview == (if ok then ResumeHTML(resumeData, currentTemplate).value else old(preview))
    {
      var r := ResumeHTML(resumeData, currentTemplate);
      if r.Ok? {
        preview := r.value;
      }
      ok := r.Ok?;
    }

    /** The control exists on the page: a static text control, or a field
        of an existing item of its section. */
    predicate ControlExists(c: Control)
      reads this
    {
      match c
      case TextInput(id) => id in inputs
      case ItemInput(s, i, f) => s in containers && i < |containers[s]| && f in SchemaKeys(s)
    }

    /** handleFormInput, and handleFormChange, which is the same for a form
        without checkboxes: the control now holds `value`, the record key
        named by the control's bare name is set to it (an item's
        'location' overwrites the top-level location), and the preview is
        re-rendered. */
    method HandleFormInput(c: Control, value: string)
      requires Valid() && ControlExists(c)
      requires c.ItemInput? && IsSelect(c.section, c.field) ==> value in ProficiencyOptions
      modifies this`resumeData, this`inputs, this`containers, this`preview
      ensures Valid()
      ensures resumeData == old(resumeData)[ControlName(c) := Str(value)]
      ensures c.TextInput? ==> inputs == old(inputs)[c.id := value] && containers == old(containers)
      ensures c.ItemInput? ==>
                inputs == old(inputs) &&
                containers == old(containers)[c.section := old(containers)[c.section][c.index := old(containers)[c.section][c.index][c.field := value]]]
      ensures preview == (if ResumeHTML(resumeData, currentTemplate).Ok? then ResumeHTML(resumeData, currentTemplate).value else old(preview))
    {
      EditControl(c, value);
      var name := ControlName(c);
      if c.TextInput? { TextControlsUndotted(); } else { SchemaUndotted(c.section, c.field); }
      UpdateData(name, Str(value));
      var _ := UpdatePreview();
    }

    /** The user's edit itself: the control now holds `value`. */
    method EditControl(c: Control, value: string)
      requires Valid() && ControlExists(c)
      requires c.ItemInput? && IsSelect(c.section, c.field) ==> value in ProficiencyOptions
      modifies this`inputs, this`containers
      ensures Valid()
      ensures c.TextInput? ==> inputs == old(inputs)[c.id := value] && containers == old(containers)
      ensures c.ItemInput? ==>
                inputs == old(inputs) &&
                containers == old(containers)[c.section := old(containers)[c.section][c.index := old(containers)[c.section][c.index][c.field := value]]]
    {
      match c {
        case TextInput(id) =>
          inputs := inputs[id := value];
        case ItemInput(s, i, f) =>
          EditKeepsWellFormed(containers, s, i, f, value);
          containers := containers[s := containers[s][i := containers[s][i][f := value]]];
      }
    }

    /** saveToStorage: the record, the template and the colour are written
        under their three keys with a success notice; when storage refuses
        the write nothing is stored and an error notice is shown. */
    method SaveToStorage(stringify: Data -> string, fits: bool)
      requires Valid()
      modifies this`storage, this`notifications
      ensures Valid()
      ensures unchanged(this`resumeData, this`currentTemplate, this`accentColor)
      ensures fits ==> storage == SavedStorage(old(storage), stringify(resumeData), currentTemplate, accentColor) &&
                       notifications == old(notifications) + [SavedNotice]
      ensures !fits ==> storage == old(storage) && notifications == old(notifications) + [SaveFailedNotice]
    {
      if fits {
        storage := storage["resumeData" := stringify(resumeData)];
        storage := storage["resumeTemplate" := currentTemplate];
        storage := storage["resumeAccentColor" := accentColor];
        notifications := notifications + [SavedNotice];
      } else {
        notifications := notifications + [SaveFailedNotice];
      }
    }

    /** The tail shared by the template and colour handlers: re-render,
        then save; when rendering throws the save is never reached. */
    method RenderAndSave(stringify: Data -> string, fits: bool)
      requires Valid()
      modifies this`preview, this`storage, this`notifications
      ensures Valid()
      ensures unchanged(this`resumeData, this`currentTemplate, this`accentColor)
      ensures preview == (if ResumeHTML(resumeData, currentTemplate).Ok? then ResumeHTML(resumeData, currentTemplate).value else old(preview))
      ensures ResumeHTML(resumeData, currentTemplate).Ok? && fits ==>
                storage == SavedStorage(old(storage), stringify(resumeData), currentTemplate, accentColor) &&
                notifications == old(notifications) + [SavedNotice]
      ensures ResumeHTML(resumeData, currentTemplate).Ok? && !fits ==>
                storage == old(storage) && notifications == old(notifications) + [SaveFailedNotice]
      ensures ResumeHTML(resumeData, currentTemplate).Err? ==> storage == old(storage) && notifications == old(notifications)
    {
      var ok := UpdatePreview();
      if ok {
        SaveToStorage(stringify, fits);
      }
    }

    /** handleTemplateChange: adopt the template, re-render, then save. */
    method HandleTemplateChange(template: string, stringify: Data -> string, fits: bool)
      requires Valid()
      modifies this`currentTemplate, this`preview, this`storage, this`notifications
      ensures Valid()
      ensures currentTemplate == template
      ensures preview == (if ResumeHTML(resumeData, template).Ok? then ResumeHTML(resumeData, template).value else old(preview))
      ensures ResumeHTML(resumeData, template).Ok? && fits ==>
                storage == SavedStorage(old(storage), stringify(resumeData), template, accentColor) &&
                notifications == old(notifications) + [SavedNotice]
      ensures ResumeHTML(resumeData, template).Ok? && !fits ==>
                storage == old(storage) && notifications == old(notifications) + [SaveFailedNotice]
      ensures ResumeHTML(resumeData, template).Err? ==> storage == old(storage) && notifications == old(notifications)
    {
      currentTemplate := template;
      RenderAndSave(stringify, fits);
    }

    /** handleColorChange: adopt the colour, re-render, then save. The
        colour does not enter the markup. */
    method HandleColorChange(color: string, stringify: Data -> string, fits: bool)
      requires Valid()
      modifies this`accentColor, this`preview, this`storage, this`notifications
      ensures Valid()
      ensures accentColor == color
      ensures preview == (if ResumeHTML(resumeData, currentTemplate).Ok? then ResumeHTML(resumeData, currentTemplate).value else old(preview))
      ensures ResumeHTML(resumeData, currentTemplate).Ok? && fits ==>
                storage == SavedStorage(old(storage), stringify(resumeData), currentTemplate, color) &&
                notifications == old(notifications) + [SavedNotice]
      ensures ResumeHTML(resumeData, currentTemplate).Ok? && !fits ==>
                storage == old(storage) && notifications == old(notifications) + [SaveFailedNotice]
      ensures ResumeHTML(resumeData, currentTemplate).Err? ==> storage == old(storage) && notifications == old(notifications)
    {
      accentColor := color;
      RenderAndSave(stringify, fits);
    }

    /** handlePhotoUpload with the read finished: an image file's data URL
        becomes the photo and is shown; any other file is ignored. */
    method HandlePhotoUpload(mimeType: string, dataUrl: string)
      requires Valid()
      modifies this`resumeData, this`photoPreview, this`preview
      ensures Valid()
      ensures |mimeType| >= 6 && mimeType[..6] == "image/" ==>
                resumeData == old(resumeData)["photo" := Str(dataUrl)] &&
                photoPreview == Some(dataUrl) &&
                preview == (if ResumeHTML(resumeData, currentTemplate).Ok? then ResumeHTML(resumeData, currentTemplate).value else old(preview))
      ensures !(|mimeType| >= 6 && mimeType[..6] == "image/") ==>
                resumeData == old(resumeData) && photoPreview == old(photoPreview) && preview == old(preview)
    {
      if |mimeType| >= 6 && mimeType[..6] == "image/" {
          UpdateData("photo", Str(dataUrl));
        photoPreview := Some(dataUrl);
        var _ := UpdatePreview();
      }
    }

    /** handlePhotoRemove: the photo becomes '' and the preview image is
        hidden. */
    method HandlePhotoRemove()
      requires Valid()
      modifies this`resumeData, this`photoPreview, this`preview
      ensures Valid()
      ensures resumeData == old(resumeData)["photo" := Str("")]
      ensures photoPreview == None
      ensures preview == (if ResumeHTML(resumeData, currentTemplate).Ok? then ResumeHTML(resumeData, currentTemplate).value else old(preview))
    {
      UpdateData("photo", Str(""));
      photoPreview := None;
      var _ := UpdatePreview();
    }

    /** addSectionItem: a blank item at the end of the section. */
    method AddSectionItem(s: Section)
      requires Valid()
      modifies this`containers
      ensures Valid()
      ensures containers == old(containers)[s := old(containers)[s] + [BlankItem(s)]]
    {
      AppendKeepsWellFormed(containers, s, BlankItem(s));
      containers := containers[s := containers[s] + [BlankItem(s)]];
    }

    /** initializeSections: one blank item appended to every section. */
    method InitializeSections()
      requires Valid()
      modifies this`containers
      ensures Valid()
      ensures unchanged(this`resumeData, this`inputs, this`photoPreview, this`preview, this`storage, this`notifications, this`currentTemplate, this`accentColor)
      ensures containers == WithBlanks(old(containers))
      ensures forall s :: |containers[s]| >= 1 && containers[s][|containers[s]| - 1] == BlankItem(s)
    {
      var k := 0;
      while k < |AllSections|
        invariant 0 <= k <= |AllSections|
        invariant Valid()
        invariant forall s :: containers[s] == old(containers)[s] + (if Index(s) < k then [BlankItem(s)] else [])
      {
        IndexInverse(k);
        AppendBlankStep(old(containers), containers, AllSections[k], BlankItem);
        AddSectionItem(AllSections[k]);
        k := k + 1;
      }
      WithBlanksOf(old(containers), containers);
      WithBlanksAppends(old(containers));
    }

    /** removeSectionItem: the item goes when its section has another one;
        the last item stays and a warning is shown instead. */
    method RemoveSectionItem(s: Section, i: nat)
      requires Valid() && i < |containers[s]|
      modifies this`containers, this`notifications, this`preview
      ensures Valid()
      ensures containers == old(containers)[s := Removed(old(containers)[s], i)]
      ensures |old(containers)[s]| > 1 ==>
                notifications == old(notifications) &&
                preview == (if ResumeHTML(resumeData, currentTemplate).Ok? then ResumeHTML(resumeData, currentTemplate).value else old(preview))
      ensures |old(containers)[s]| <= 1 ==> notifications == old(notifications) + [LastItemNotice] && preview == old(preview)
    {
      if |containers[s]| > 1 {
        RemoveKeepsWellFormed(containers, s, i);
        containers := containers[s := Removed(containers[s], i)];
        var _ := UpdatePreview();
      } else {
        notifications := notifications + [LastItemNotice];
      }
    }

    /** moveSectionItem: the item moves to index + direction when that is
        inside the section, and the preview is re-rendered; otherwise
        nothing happens. */
    method MoveSectionItem(s: Section, i: nat, direction: int)
      requires Valid() && i < |containers[s]|
      modifies this`containers, this`preview
      ensures Valid()
      ensures containers == old(containers)[s := Moved(old(containers)[s], i, direction)]
      ensures 0 <= i + direction < |old(containers)[s]| ==>
                preview == (if ResumeHTML(resumeData, currentTemplate).Ok? then ResumeHTML(resumeData, currentTemplate).value else old(preview))
      ensures !(0 <= i + direction < |old(containers)[s]|) ==> preview == old(preview)
    {
      var t := i + direction;
      if 0 <= t < |containers[s]| {
        MoveKeepsWellFormed(containers, s, i, direction);
        containers := containers[s := Moved(containers[s], i, direction)];
        var _ := UpdatePreview();
      }
    }

    /** populateForm: first every static control whose record key is
        truthy shows that value (a truthy photo is shown in the preview),
        then each section's container is rebuilt from its array in order;
        the sections loop stops where populating a section throws. */
    method PopulateForm() returns (ok: bool)
      requires Valid()
      modifies this`inputs, this`photoPreview, this`containers
      ensures Valid()
      ensures unchanged(this`resumeData, this`preview, this`storage, this`notifications, this`currentTemplate, this`accentColor)
      ensures inputs == PopulatedInputs(old(inputs), resumeData)
      ensures photoPreview == PopulatedPhoto(old(photoPreview), resumeData)
      ensures (containers, ok) == FillSections(old(containers), resumeData, AllSections)
    {
      assert "photo" !in TextControls;
      PopulateControls();
      ok := PopulateSections();
    }

    /** The first loop of populateForm, over the record's keys. */
    method PopulateControls()
      requires "photo" !in inputs
      modifies this`inputs, this`photoPreview
      ensures unchanged(this`resumeData, this`containers, this`preview, this`storage, this`notifications, this`currentTemplate, this`accentColor)
      ensures inputs == PopulatedInputs(old(inputs), resumeData)
      ensures photoPreview == PopulatedPhoto(old(photoPreview), resumeData)
    {
      var keys := resumeData.Keys;
      while keys != {}
        invariant keys <= resumeData.Keys
        invariant inputs.Keys == old(inputs).Keys
        invariant forall id :: id in inputs ==>
                    inputs[id] == (if id in resumeData && id !in keys && Truthy(resumeData[id]) then ToText(resumeData[id]) else old(inputs)[id])
        invariant photoPreview == (if "photo" in keys then old(photoPreview) else PopulatedPhoto(old(photoPreview), resumeData))
        decreases keys
      {
        var key :| key in keys;
        if Truthy(resumeData[key]) {
          if key in inputs {
            inputs := inputs[key := ToText(resumeData[key])];
          } else if key == "photo" {
            photoPreview := Some(ToText(resumeData[key]));
          }
        }
        keys := keys - {key};
      }
    }

    /** The second loop of populateForm, over the sections in order. */
    method PopulateSections() returns (ok: bool)
      requires WellFormedContainers(containers)
      modifies this`containers
      ensures unchanged(this`resumeData, this`inputs, this`photoPreview, this`preview, this`storage, this`notifications, this`currentTemplate, this`accentColor)
      ensures WellFormedContainers(containers)
      ensures (containers, ok) == FillSections(old(containers), resumeData, AllSections)
    {
      var ss := AllSections;
      var k := 0;
      assert ss[0..] == ss;
      while k < |ss|
        invariant 0 <= k <= |ss|
        invariant FillSections(containers, resumeData, ss[k..]) == FillSections(old(containers), resumeData, ss)
      {
        FillSectionsStep(containers, resumeData, ss, k);
        var finished := PopulateSection(ss[k]);
        if !finished {
          FillSectionsFrame(old(containers), resumeData, ss);
          return false;
        }
        k := k + 1;
      }
      FillSectionsFrame(old(containers), resumeData, ss);
      ok := true;
    }

    /** One turn of populateForm's sections loop: the section's container
        gets FillSection's items, and whether it finished is returned. */
    method PopulateSection(s: Section) returns (finished: bool)
      modifies this`containers
      ensures containers == old(containers)[s := FillSection(s, Field(resumeData, Key(s))).0]
      ensures finished == FillSection(s, Field(resumeData, Key(s))).1
    {
      var filled := FillSection(s, Field(resumeData, Key(s)));
      containers := containers[s := filled.0];
      finished := filled.1;
    }

    /** `this.resumeData = { ...this.getDefaultData(), ...parsed };
        this.populateForm();` as import and load both do it. */
    method AdoptRecord(parsed: Value) returns (ok: bool)
      requires Valid()
      modifies this`resumeData, this`inputs, this`photoPreview, this`containers
      ensures Valid()
      ensures unchanged(this`preview, this`storage, this`notifications, this`currentTemplate, this`accentColor)
      ensures resumeData == FromExchange(parsed)
      ensures inputs == PopulatedInputs(old(inputs), resumeData)
      ensures photoPreview == PopulatedPhoto(old(photoPreview), resumeData)
      ensures (containers, ok) == FillSections(old(containers), resumeData, AllSections)
    {
      resumeData := FromExchange(parsed);
      ok := PopulateForm();
    }

    /** loadFromStorage: stored data replaces the record (merged over the
        defaults) and is populated into the form; a stored template and
        colour are adopted afterwards. Unparseable data, or a populate that
        throws, ends the load there (the error is caught and logged). */
    method LoadFromStorage(parse: string -> Option<Value>)
      requires Valid()
      modifies this`resumeData, this`inputs, this`photoPreview, this`containers, this`currentTemplate, this`accentColor
      ensures Valid()
      ensures unchanged(this`preview, this`storage, this`notifications)
      ensures Stored(storage, "resumeData") == "" || parse(Stored(storage, "resumeData")).None? ==>
                resumeData == old(resumeData) && inputs == old(inputs) && photoPreview == old(photoPreview) &&
                containers == old(containers)
      ensures Stored(storage, "resumeData") != "" && parse(Stored(storage, "resumeData")).Some? ==>
                resumeData == FromExchange(parse(Stored(storage, "resumeData")).value) &&
                inputs == PopulatedInputs(old(inputs), resumeData) &&
                photoPreview == PopulatedPhoto(old(photoPreview), resumeData) &&
                containers == FillSections(old(containers), resumeData, AllSections).0
      ensures var proceeds := Stored(storage, "resumeData") == "" ||
                (parse(Stored(storage, "resumeData")).Some? && FillSections(old(containers), resumeData, AllSections).1);
              currentTemplate == (if proceeds && Stored(storage, "resumeTemplate") != "" then storage["resumeTemplate"] else old(currentTemplate)) &&
              accentColor == (if proceeds && Stored(storage, "resumeAccentColor") != "" then storage["resumeAccentColor"] else old(accentColor))
    {
      var data := Stored(storage, "resumeData");
      if data != "" {
        var parsed := parse(data);
        if parsed.None? {
          return;
        }
        var ok := AdoptRecord(parsed.value);
        if !ok {
          return;
        }
      }
      var template := Stored(storage, "resumeTemplate");
      if template != "" {
        currentTemplate := template;
      }
      var color := Stored(storage, "resumeAccentColor");
      if color != "" {
        accentColor := color;
      }
    }

    /** handleFileImport with the file read: text that does not parse
        changes nothing and shows one error notice. Parsed data replaces
        the record (merged over the defaults) and is populated, then
        rendered and saved (ImportRecord). */
    method HandleFileImport(text: string, parse: string -> Option<Value>, stringify: Data -> string, fits: bool)
      requires Valid()
      modifies this`resumeData, this`inputs, this`photoPreview, this`containers, this`preview, this`storage, this`notifications
      ensures Valid()
      ensures parse(text).None? ==>
                resumeData == old(resumeData) && inputs == old(inputs) && photoPreview == old(photoPreview) &&
                containers == old(containers) && preview == old(preview) && storage == old(storage) &&
                notifications == old(notifications) + [ImportFailedNotice]
      ensures parse(text).Some? ==>
                resumeData == FromExchange(parse(text).value) &&
                inputs == PopulatedInputs(old(inputs), resumeData) &&
                photoPreview == PopulatedPhoto(old(photoPreview), resumeData) &&
                containers == FillSections(old(containers), resumeData, AllSections).0 &&
                (preview, storage, notifications) ==
                  ImportOutcome(old(preview), old(storage), old(notifications), FillSections(old(containers), resumeData, AllSections).1,
                                resumeData, currentTemplate, accentColor, stringify, fits)
    {
      var parsed := parse(text);
      if parsed.None? {
        notifications := notifications + [ImportFailedNotice];
        return;
      }
      ImportRecord(parsed.value, stringify, fits);
    }

    /** The import's try block once the text has parsed: adopt and
        populate, then FinishImport. */
    method ImportRecord(parsed: Value, stringify: Data -> string, fits: bool)
      requires Valid()
      modifies this`resumeData, this`inputs, this`photoPreview, this`containers, this`preview, this`storage, this`notifications
      ensures Valid()
      ensures resumeData == FromExchange(parsed)
      ensures inputs == PopulatedInputs(old(inputs), resumeData)
      ensures photoPreview == PopulatedPhoto(old(photoPreview), resumeData)
      ensures containers == FillSections(old(containers), resumeData, AllSections).0
      ensures (preview, storage, notifications) ==
                ImportOutcome(old(preview), old(storage), old(notifications), FillSections(old(containers), resumeData, AllSections).1,
                              resumeData, currentTemplate, accentColor, stringify, fits)
    {
      var ok := AdoptRecord(parsed);
      FinishImport(ok, stringify, fits);
    }

    /** The rest of the import's try block: render, save, and the success
        notice; a populate or render that threw lands in the catch, which
        shows the error notice, so nothing is saved. */
    method FinishImport(populated: bool, stringify: Data -> string, fits: bool)
      requires Valid()
      modifies this`preview, this`storage, this`notifications
      ensures Valid()
      ensures unchanged(this`resumeData, this`currentTemplate, this`accentColor)
      ensures (preview, storage, notifications) ==
                ImportOutcome(old(preview), old(storage), old(notifications), populated, old(resumeData), old(currentTemplate), old(accentColor), stringify, fits)
    {
      var ok := populated;
      if ok {
        ok := UpdatePreview();
      }
      ReportImport(ok, stringify, fits);
    }

    /** The end of the import once the preview is rendered (or not): save
        and the success notice, or the error notice. */
    method ReportImport(rendered: bool, stringify: Data -> string, fits: bool)
      requires Valid()
      modifies this`storage, this`notifications
      ensures Valid()
      ensures unchanged(this`resumeData, this`currentTemplate, this`accentColor, this`preview)
      ensures rendered ==>
                storage == (if fits then SavedStorage(old(storage), stringify(resumeData), currentTemplate, accentColor) else old(storage)) &&
                notifications == old(notifications) + [if fits then SavedNotice else SaveFailedNotice, ImportedNotice]
      ensures !rendered ==> storage == old(storage) && notifications == old(notifications) + [ImportFailedNotice]
    {
      if !rendered {
        notifications := notifications + [ImportFailedNotice];
        return;
      }
      SaveToStorage(stringify, fits);
      notifications := notifications + [ImportedNotice];
      assert notifications == old(notifications) + [if fits then SavedNotice else SaveFailedNotice, ImportedNotice];
    }
  }
}
