/** `format_output` of the command-line front end: renders a looked-up
    organization record as `Label: value` lines for the requested field names,
    plus the field lists the `search` and `fetch` commands request. */
module Format {
  import opened Wrappers
  import opened Record
  import Strings

  /** The five entries of `field_map`. */
  datatype Field = Name | Status | Registration | Address | Purpose

  /** The key each renderer is registered under in `field_map`. It is also the
      top-level record key that renderer reads: the two coincide for all five fields. */
  function FieldName(f: Field): string
  {
    match f
    case Name => "name"
    case Status => "status"
    case Registration => "registration"
    case Address => "address"
    case Purpose => "purpose"
  }

  /** `field_map.get(name)`: the renderer registered under `name`, if any.
      The lookup is exact, so `Name` or `NAME` finds nothing. */
  function FieldOf(name: string): (r: Option<Field>)
    ensures r.Some? ==> FieldName(r.value) == name
    ensures r.None? ==> forall f: Field :: FieldName(f) != name
  {
    if name == "name" then Some(Name)
    else if name == "status" then Some(Status)
    else if name == "registration" then Some(Registration)
    else if name == "address" then Some(Address)
    else if name == "purpose" then Some(Purpose)
    else None
  }

  lemma FieldOfFieldName(f: Field)
    ensures FieldOf(FieldName(f)) == Some(f)
  {
  }

  /** `f.capitalize()`: the text in front of `: ` on a field's line. */
  function Label(f: Field): (r: string)
    ensures r == [Strings.UpperAscii(FieldName(f)[0])] + FieldName(f)[1..]
  {
    FieldNameIsLowerWord(f);
    Strings.CapitalizeLowerWord(FieldName(f));
    Strings.Capitalize(FieldName(f))
  }

  /** A label consists of ASCII letters only. */
  lemma LabelLetters(f: Field)
    ensures forall i :: 0 <= i < |Label(f)| ==> 'A' <= Label(f)[i] <= 'Z' || 'a' <= Label(f)[i] <= 'z'
  {
    FieldNameIsLowerWord(f);
    Strings.CapitalizeLowerWord(FieldName(f));
  }

  lemma FieldNameIsLowerWord(f: Field)
    ensures Strings.LowerWord(FieldName(f))
  {
    match f
    case Name =>
    case Status =>
    case Registration =>
    case Address =>
    case Purpose =>
  }

  /** The five labels, as they appear on the printed lines. */
  lemma LabelText()
    ensures Label(Name) == "Name"
    ensures Label(Status) == "Status"
    ensures Label(Registration) == "Registration"
    ensures Label(Address) == "Address"
    ensures Label(Purpose) == "Purpose"
  {
    // Naming the five labels lets the verifier apply `Label`'s contract to each.
    var name, status, registration, address, purpose :=
      Label(Name), Label(Status), Label(Registration), Label(Address), Label(Purpose);
  }

  /** No label contains a newline, so each field occupies exactly one line. */
  lemma LabelHasNoNewline(f: Field)
    ensures '\n' !in Label(f)
  {
    LabelLetters(f);
  }

  /** The value the renderer of `f` computes from record `d`. */
  function Render(f: Field, d: Object): (r: Result<string, ReadError>)
    ensures FieldName(f) !in d ==> r.Success?
    ensures r.Failure? ==> |r.error.path| > 0 && r.error.path[0] == FieldName(f)
  {
    match f
    case Name => TextAt(d, "name")
    case Status => TextAt(d, "status")
    case Registration => RegistrationText(d)
    case Address => AddressText(d)
    case Purpose => TextAt(d, "purpose")
  }

  /** The `registration` renderer: `register_type register_number (court)`. */
  function RegistrationText(d: Object): (r: Result<string, ReadError>)
    ensures r.Success? <==> NestedTextSlots(d, "registration", RegistrationKeys)
    ensures r.Failure? ==> |r.error.path| > 0 && r.error.path[0] == "registration"
  {
    NestedTextSlots3(d, "registration", "register_type", "register_number", "court");
    var kind :- NestedTextAt(d, "registration", "register_type");
    var number :- NestedTextAt(d, "registration", "register_number");
    var court :- NestedTextAt(d, "registration", "court");
    Success(kind + " " + number + " (" + court + ")")
  }

  /** The `address` renderer: `street, postal_code city, country_code`. */
  function AddressText(d: Object): (r: Result<string, ReadError>)
    ensures r.Success? <==> NestedTextSlots(d, "address", AddressKeys)
    ensures r.Failure? ==> |r.error.path| > 0 && r.error.path[0] == "address"
  {
    NestedTextSlots4(d, "address", "street", "postal_code", "city", "country_code");
    var street :- NestedTextAt(d, "address", "street");
    var postalCode :- NestedTextAt(d, "address", "postal_code");
    var city :- NestedTextAt(d, "address", "city");
    var country :- NestedTextAt(d, "address", "country_code");
    Success(street + ", " + postalCode + " " + city + ", " + country)
  }

  /** The inner keys the `registration` and `address` renderers read. */
  const RegistrationKeys: seq<string> := ["register_type", "register_number", "court"]
  const AddressKeys: seq<string> := ["street", "postal_code", "city", "country_code"]

  /** The requested names that `field_map` knows, in request order, repeats kept. */
  function Recognized(names: seq<string>): (r: seq<Field>)
    ensures |r| <= |names|
  {
    if |names| == 0 then []
    else
      var head := match FieldOf(names[0]) case None => [] case Some(f) => [f];
      head + Recognized(names[1..])
  }

  /** A field is recognized exactly when some requested name is its key. */
  lemma {:induction false} RecognizedMembers(names: seq<string>)
    ensures forall f :: f in Recognized(names) <==> exists i :: 0 <= i < |names| && FieldOf(names[i]) == Some(f)
  {
    if |names| > 0 {
      RecognizedMembers(names[1..]);
      forall f
        ensures f in Recognized(names) <==> exists i :: 0 <= i < |names| && FieldOf(names[i]) == Some(f)
      {
        if exists i :: 1 <= i < |names| && FieldOf(names[i]) == Some(f) {
          var i :| 1 <= i < |names| && FieldOf(names[i]) == Some(f);
          assert names[1..][i - 1] == names[i];
        }
        if exists i :: 0 <= i < |names[1..]| && FieldOf(names[1..][i]) == Some(f) {
          var i :| 0 <= i < |names[1..]| && FieldOf(names[1..][i]) == Some(f);
          assert names[i + 1] == names[1..][i];
        }
      }
    }
  }

  /** Recognizing a concatenation recognizes each part: every name is judged on its own. */
  lemma {:induction false} RecognizedAppend(a: seq<string>, b: seq<string>)
    ensures Recognized(a + b) == Recognized(a) + Recognized(b)
  {
    if |a| > 0 {
      assert (a + b)[1..] == a[1..] + b;
      RecognizedAppend(a[1..], b);
    } else {
      assert a + b == b;
    }
  }

  /** The lines of the loop over the requested names, or the first read error it hits. */
  function Lines(d: Object, names: seq<string>): (r: Result<seq<string>, ReadError>)
    ensures r.Success? ==> |r.value| == |Recognized(names)|
  {
    if |names| == 0 then Success([])
    else
      match FieldOf(names[0])
      case None => Lines(d, names[1..])
      case Some(f) =>
        var value :- Render(f, d);
        var rest :- Lines(d, names[1..]);
        Success([Label(f) + ": " + value] + rest)
  }

  /** The loop succeeds exactly when every recognized field renders; it then holds
      one `Label: value` line per recognized name in request order, and otherwise
      the error of the first recognized field that fails. */
  lemma {:induction false} LinesSpec(d: Object, names: seq<string>)
    ensures Lines(d, names).Success? <==> AllRender(d, Recognized(names))
    ensures Lines(d, names).Success? ==> LinesMatch(d, Recognized(names), Lines(d, names).value)
    ensures Lines(d, names).Failure? ==> FirstError(d, Recognized(names), Lines(d, names).error)
  {
    if |names| > 0 {
      LinesSpec(d, names[1..]);
      match FieldOf(names[0])
      case None =>
        assert Recognized(names) == Recognized(names[1..]);
      case Some(f) =>
        var rest := Recognized(names[1..]);
        assert Recognized(names) == [f] + rest;
        AllRenderCons(d, f, rest);
        match Render(f, d)
        case Failure(e) =>
          FirstErrorHere(d, f, rest, e);
        case Success(value) =>
          match Lines(d, names[1..])
          case Failure(e) =>
            FirstErrorLater(d, f, rest, e);
          case Success(tail) =>
            LinesMatchCons(d, f, rest, tail);
    }
  }

  /** Every field in `known` renders. */
  predicate AllRender(d: Object, known: seq<Field>)
  {
    forall j :: 0 <= j < |known| ==> Render(known[j], d).Success?
  }

  /** `lines` holds `Label: value` for each field in `known`, in the same order. */
  predicate LinesMatch(d: Object, known: seq<Field>, lines: seq<string>)
  {
    && |lines| == |known|
    && forall j :: 0 <= j < |known| ==>
         Render(known[j], d).Success? && lines[j] == Label(known[j]) + ": " + Render(known[j], d).value
  }

  /** `e` is the error of the first field in `known` that does not render. */
  predicate FirstError(d: Object, known: seq<Field>, e: ReadError)
  {
    exists j :: 0 <= j < |known| && Render(known[j], d) == Failure(e) && AllRender(d, known[..j])
  }

  lemma AllRenderCons(d: Object, f: Field, rest: seq<Field>)
    ensures AllRender(d, [f] + rest) <==> Render(f, d).Success? && AllRender(d, rest)
  {
    var known := [f] + rest;
    assert known[0] == f;
    assert forall j :: 0 <= j < |rest| ==> known[j + 1] == rest[j];
  }

  lemma LinesMatchCons(d: Object, f: Field, rest: seq<Field>, tail: seq<string>)
    requires Render(f, d).Success?
    requires LinesMatch(d, rest, tail)
    ensures LinesMatch(d, [f] + rest, [Label(f) + ": " + Render(f, d).value] + tail)
  {
    var known := [f] + rest;
    var lines := [Label(f) + ": " + Render(f, d).value] + tail;
    forall j | 0 <= j < |known|
      ensures Render(known[j], d).Success? && lines[j] == Label(known[j]) + ": " + Render(known[j], d).value
    {
      if j > 0 {
        assert known[j] == rest[j - 1];
        assert lines[j] == tail[j - 1];
      }
    }
  }

  lemma FirstErrorHere(d: Object, f: Field, rest: seq<Field>, e: ReadError)
    requires Render(f, d) == Failure(e)
    ensures FirstError(d, [f] + rest, e)
  {
    assert ([f] + rest)[0] == f;
    assert AllRender(d, ([f] + rest)[..0]);
  }

  lemma FirstErrorLater(d: Object, f: Field, rest: seq<Field>, e: ReadError)
    requires Render(f, d).Success?
    requires FirstError(d, rest, e)
    ensures FirstError(d, [f] + rest, e)
  {
    var j :| 0 <= j < |rest| && Render(rest[j], d) == Failure(e) && AllRender(d, rest[..j]);
    var known := [f] + rest;
    assert known[j + 1] == rest[j];
    assert known[..j + 1] == [f] + rest[..j];
  }

  /** The first failing field is unique, so its error is too. */
  lemma FirstErrorUnique(d: Object, known: seq<Field>, e1: ReadError, e2: ReadError)
    requires FirstError(d, known, e1) && FirstError(d, known, e2)
    ensures e1 == e2
  {
    var j1 :| 0 <= j1 < |known| && Render(known[j1], d) == Failure(e1) && AllRender(d, known[..j1]);
    var j2 :| 0 <= j2 < |known| && Render(known[j2], d) == Failure(e2) && AllRender(d, known[..j2]);
    forall lo, hi | 0 <= lo < hi <= |known| && AllRender(d, known[..hi])
      ensures Render(known[lo], d).Success?
    {
      assert known[..hi][lo] == known[lo];
    }
    assert j1 == j2;
  }

  /** The loop's outcome depends on nothing but the recognized fields, in order:
      unknown names, wherever they stand, change nothing. */
  lemma LinesDependOnlyOnRecognized(d: Object, a: seq<string>, b: seq<string>)
    requires Recognized(a) == Recognized(b)
    ensures Lines(d, a) == Lines(d, b)
  {
    var known := Recognized(a);
    LinesSpec(d, a);
    LinesSpec(d, b);
    var ra, rb := Lines(d, a), Lines(d, b);
    assert ra.Success? <==> rb.Success?;
    if ra.Success? {
      LinesMatchUnique(d, known, ra.value, rb.value);
    } else {
      FirstErrorUnique(d, known, ra.error, rb.error);
    }
  }

  /** The lines of a list of fields are determined by the fields. */
  lemma LinesMatchUnique(d: Object, known: seq<Field>, l1: seq<string>, l2: seq<string>)
    requires LinesMatch(d, known, l1) && LinesMatch(d, known, l2)
    ensures l1 == l2
  {
  }

  /** A name `field_map` does not know produces no line, wherever it is requested. */
  lemma UnknownNameIgnored(d: Object, before: seq<string>, name: string, after: seq<string>)
    requires FieldOf(name).None?
    ensures FormatOutput(d, before + [name] + after) == FormatOutput(d, before + after)
  {
    var a, b := before + [name] + after, before + after;
    RecognizedAppend(before + [name], after);
    RecognizedAppend(before, [name]);
    RecognizedAppend(before, after);
    assert Recognized([name]) == [];
    assert Recognized(before + [name]) == Recognized(before);
    assert Recognized(a) == Recognized(b);
    LinesDependOnlyOnRecognized(d, a, b);
    FormatOutputFollowsLines(d, a, b);
  }

  lemma FormatOutputFollowsLines(d: Object, a: seq<string>, b: seq<string>)
    requires Lines(d, a) == Lines(d, b)
    ensures FormatOutput(d, a) == FormatOutput(d, b)
  {
  }

  /** `format_output(data, fields)`: the lines joined with newlines. */
  function FormatOutput(d: Object, names: seq<string>): (r: Result<string, ReadError>)
    ensures |Recognized(names)| == 0 ==> r == Success("")
    ensures r.Success? <==> AllRender(d, Recognized(names))
    ensures r.Failure? ==> FirstError(d, Recognized(names), r.error)
    ensures r.Success? && |Recognized(names)| == 1 ==>
              r.value == Label(Recognized(names)[0]) + ": " + Render(Recognized(names)[0], d).value
    ensures r.Success? ==>
              exists lines :: LinesMatch(d, Recognized(names), lines) && r.value == Strings.Join(lines, '\n')
  {
    LinesSpec(d, names);
    var lines :- Lines(d, names);
    assert LinesMatch(d, Recognized(names), lines);
    Success(Strings.Join(lines, '\n'))
  }

  /** Splitting the output at newlines gives back one line per recognized name,
      in request order, whenever no rendered value contains a newline. */
  lemma OutputLines(d: Object, names: seq<string>)
    requires FormatOutput(d, names).Success?
    requires |Recognized(names)| > 0
    requires forall j :: 0 <= j < |Recognized(names)| ==> '\n' !in Render(Recognized(names)[j], d).value
    ensures var lines := Strings.Split(FormatOutput(d, names).value, '\n');
            var known := Recognized(names);
            && |lines| == |known|
            && forall j :: 0 <= j < |lines| ==> lines[j] == Label(known[j]) + ": " + Render(known[j], d).value
  {
    var known := Recognized(names);
    LinesSpec(d, names);
    var lines := Lines(d, names).value;
    forall j | 0 <= j < |lines|
      ensures '\n' !in lines[j]
    {
      LabelHasNoNewline(known[j]);
    }
    Strings.SplitJoin(lines, '\n');
  }

  /** A record in which every position the renderers read is absent or of the
      expected kind: text for leaves, objects for `registration` and `address`. */
  predicate WellShaped(d: Object)
  {
    && TextSlot(d, "name")
    && TextSlot(d, "status")
    && TextSlot(d, "purpose")
    && NestedTextSlots(d, "registration", RegistrationKeys)
    && NestedTextSlots(d, "address", AddressKeys)
  }

  const AllFieldNames: seq<string> := ["name", "status", "registration", "address", "purpose"]

  lemma RecognizedAll()
    ensures Recognized(AllFieldNames) == [Name, Status, Registration, Address, Purpose]
  {
    assert AllFieldNames == ["name"] + (["status"] + (["registration"] + (["address"] + ["purpose"])));
    RecognizedAppend(["name"], ["status"] + (["registration"] + (["address"] + ["purpose"])));
    RecognizedAppend(["status"], ["registration"] + (["address"] + ["purpose"]));
    RecognizedAppend(["registration"], ["address"] + ["purpose"]);
    RecognizedAppend(["address"], ["purpose"]);
  }

  /** A well-shaped record renders every field. */
  lemma WellShapedRenders(d: Object, f: Field)
    requires WellShaped(d)
    ensures Render(f, d).Success?
  {
  }

  /** A well-shaped record formats without error, whatever the requested names. */
  lemma WellShapedFormats(d: Object, names: seq<string>)
    requires WellShaped(d)
    ensures FormatOutput(d, names).Success?
  {
    forall j | 0 <= j < |Recognized(names)|
      ensures Render(Recognized(names)[j], d).Success?
    {
      WellShapedRenders(d, Recognized(names)[j]);
    }
  }

  /** Conversely, a record that formats with every field requested is well shaped. */
  lemma FormatsOnlyIfWellShaped(d: Object)
    requires FormatOutput(d, AllFieldNames).Success?
    ensures WellShaped(d)
  {
    RecognizedAll();
    var known := Recognized(AllFieldNames);
    assert AllRender(d, known);
    assert Render(known[0], d).Success? && Render(known[1], d).Success?;
    assert Render(known[2], d).Success? && Render(known[3], d).Success?;
    assert Render(known[4], d).Success?;
    RendersOnlyIfShaped(d);
  }

  lemma RendersOnlyIfShaped(d: Object)
    requires Render(Name, d).Success? && Render(Status, d).Success? && Render(Purpose, d).Success?
    requires Render(Registration, d).Success? && Render(Address, d).Success?
    ensures WellShaped(d)
  {
  }

  /** The default `.get` supplies when the key is absent: `""` or `{}`. */
  function Default(f: Field): Json
  {
    if f == Registration || f == Address then Obj(map[]) else Str("")
  }

  /** A renderer reads nothing but its own key: records that agree there render alike. */
  lemma RenderReadsOnlyTopKey(f: Field, d: Object, e: Object)
    requires FieldName(f) in d <==> FieldName(f) in e
    requires FieldName(f) in d ==> d[FieldName(f)] == e[FieldName(f)]
    ensures Render(f, d) == Render(f, e)
  {
  }

  /** An absent key renders exactly as its `.get` default would. */
  lemma AbsentReadsAsDefault(f: Field, d: Object)
    requires FieldName(f) !in d
    ensures Render(f, d) == Render(f, d[FieldName(f) := Default(f)])
    ensures Render(f, d).Success?
  {
  }

  /** An empty record still yields each line's fixed punctuation. */
  lemma EmptyRecordRendering()
    ensures Render(Name, map[]) == Success("")
    ensures Render(Registration, map[]) == Success("  ()")
    ensures Render(Address, map[]) == Success(",  , ")
  {
    assert "" + " " + "" + " (" + "" + ")" == "  ()";
    assert "" + ", " + "" + " " + "" + ", " + "" == ",  , ";
  }

  /** The names the `search` command formats. */
  const SearchFields: seq<string> := ["name", "registration", "status"]

  /** The names the `fetch` command formats when no `--field` is given. */
  const DefaultFetchFields: seq<string> := ["name", "registration", "status", "address"]

  /** `args.fields or [...]`: the requested names, or the defaults when none were given. */
  function FetchFields(requested: seq<string>): (r: seq<string>)
    ensures |r| > 0
    ensures requested != [] ==> r == requested
    ensures requested == [] ==> Recognized(r) == [Name, Registration, Status, Address]
  {
    if requested == [] then
      assert DefaultFetchFields == ["name"] + (["registration"] + (["status"] + ["address"]));
      RecognizedAppend(["name"], ["registration"] + (["status"] + ["address"]));
      RecognizedAppend(["registration"], ["status"] + ["address"]);
      RecognizedAppend(["status"], ["address"]);
      DefaultFetchFields
    else requested
  }

  /** The `search` summary lists name, registration and status, in that order. */
  lemma SearchFieldsRecognized()
    ensures Recognized(SearchFields) == [Name, Registration, Status]
  {
    assert SearchFields == ["name"] + (["registration"] + ["status"]);
    RecognizedAppend(["name"], ["registration"] + ["status"]);
    RecognizedAppend(["registration"], ["status"]);
  }

  /** The registration line of a record whose registration is well placed: type,
      number and court, each its text or `""`, as `type number (court)`. */
  lemma RegistrationLine(d: Object)
    requires NestedTextSlots(d, "registration", RegistrationKeys)
    ensures Render(Registration, d)
            == Success(InnerText(d, "registration", "register_type") + " "
                       + InnerText(d, "registration", "register_number") + " ("
                       + InnerText(d, "registration", "court") + ")")
  {
    NestedTextSlots3(d, "registration", "register_type", "register_number", "court");
  }

  /** The address line of a record whose address is well placed: street, postal code,
      city and country code, each its text or `""`, as `street, postal_code city, country_code`. */
  lemma AddressLine(d: Object)
    requires NestedTextSlots(d, "address", AddressKeys)
    ensures Render(Address, d)
            == Success(InnerText(d, "address", "street") + ", "
                       + InnerText(d, "address", "postal_code") + " "
                       + InnerText(d, "address", "city") + ", "
                       + InnerText(d, "address", "country_code"))
  {
    NestedTextSlots4(d, "address", "street", "postal_code", "city", "country_code");
  }

  /** A partly filled registration: each missing inner key reads as `""`. */
  lemma PartialRegistration(d: Object, kind: string, number: string)
    requires "registration" in d && d["registration"].Obj?
    requires var reg := d["registration"].fields;
             && "register_type" in reg && reg["register_type"] == Str(kind)
             && "register_number" in reg && reg["register_number"] == Str(number)
             && "court" !in reg
    ensures Render(Registration, d) == Success(kind + " " + number + " ()")
  {
    assert kind + " " + number + " (" + "" + ")" == kind + " " + number + " ()";
  }

  /** The `fetch` command's text output with the default fields, for any well-shaped
      record whose name is `KONUX GmbH` and whose status is `ACTIVE`: four lines, the
      first `Name: KONUX GmbH` (so the output starts with it), the third `Status: ACTIVE`. */
  lemma FetchTextExample(d: Object)
    requires WellShaped(d)
    requires "name" in d && d["name"] == Str("KONUX GmbH")
    requires "status" in d && d["status"] == Str("ACTIVE")
    ensures Lines(d, FetchFields([])).Success?
    ensures |Lines(d, FetchFields([])).value| == 4
    ensures Lines(d, FetchFields([])).value[0] == "Name: KONUX GmbH"
    ensures Lines(d, FetchFields([])).value[2] == "Status: ACTIVE"
    ensures FormatOutput(d, FetchFields([])).Success?
    ensures "Name: KONUX GmbH" <= FormatOutput(d, FetchFields([])).value
  {
    var names := FetchFields([]);
    var known := Recognized(names);
    assert known == [Name, Registration, Status, Address];
    WellShapedFormats(d, names);
    LinesSpec(d, names);
    var lines := Lines(d, names).value;
    assert LinesMatch(d, known, lines);
    LabelText();
    assert lines[0] == "Name" + ": " + "KONUX GmbH";
    assert lines[2] == "Status" + ": " + "ACTIVE";
    ExampleLineTexts();
  }

  /** The printed text of the same test: both asserted lines occur in it, joined by
      newlines with the registration and address lines. */
  lemma FetchTextOutput(d: Object)
    requires WellShaped(d)
    requires "name" in d && d["name"] == Str("KONUX GmbH")
    requires "status" in d && d["status"] == Str("ACTIVE")
    ensures FormatOutput(d, FetchFields([])).Success?
    ensures var lines := Lines(d, FetchFields([])).value;
            FormatOutput(d, FetchFields([])).value
            == "Name: KONUX GmbH" + "\n" + lines[1] + "\n" + "Status: ACTIVE" + "\n" + lines[3]
  {
    FetchTextExample(d);
    var lines := Lines(d, FetchFields([])).value;
    assert FormatOutput(d, FetchFields([])).value == Strings.Join(lines, '\n');
    Strings.JoinFour(lines, '\n');
  }

  /** The two example lines, spelled as `label + ": " + value`. */
  lemma ExampleLineTexts()
    ensures "Name" + ": " + "KONUX GmbH" == "Name: KONUX GmbH"
    ensures "Status" + ": " + "ACTIVE" == "Status: ACTIVE"
  {
  }
}
