/** The intern intake form of components/onboarding/OnboardingForm.tsx: the form's fields
    as they start, the change handlers that write into them, the comma-separated
    languages box and the submit handler that requires the declaration. */
module OnboardingForm {
  import opened Common
  import opened Records

  const DeclarationError := "You must agree to the declaration to submit the form."

  /** The fields of the form: the submission without its id, date, status and steps. */
  const FormFields: set<string> := {
    "email", "fullName", "guardianName", "dateOfBirth", "gender", "phone", "altPhone",
    "address", "addressProof", "govtId", "collegeName", "gradYear", "cgpa",
    "collegeCertificates", "collegeId", "photo", "signature", "workTime", "meetingTime",
    "declaration", "languagesKnown"}

  /** The `useState` initial form: every text field empty, gender 'Male', the graduation
      year the year after the current one, the declaration unticked and no languages. */
  function InitialForm(currentYear: int): (f: ApplicantForm)
    ensures f.Keys == FormFields
    ensures f["gender"] == Text("Male") && f["gradYear"] == Number(currentYear + 1)
    ensures f["declaration"] == Flag(false) && f["languagesKnown"] == List([])
    ensures forall k :: k in f && k !in {"gender", "gradYear", "declaration", "languagesKnown"} ==> f[k] == Text("")
  {
    map k | k in FormFields ::
      if k == "gender" then Text("Male")
      else if k == "gradYear" then Number(currentYear + 1)
      else if k == "declaration" then Flag(false)
      else if k == "languagesKnown" then List([])
      else Text("")
  }

  /** JavaScript truthiness of a field, `undefined` for a missing one. */
  predicate FieldTruthy(f: ApplicantForm, name: string) {
    name in f &&
    match f[name]
    case Text(s) => s != ""
    case Flag(b) => b
    case Number(n) => n != 0
    case List(_) => true
  }

  /** `handleChange`: the declaration checkbox stores whether it is ticked; every other
      input stores its text, the graduation year included. Nothing else changes. */
  function Change(form: ApplicantForm, name: string, value: string, inputType: string, checked: bool): (r: ApplicantForm)
    ensures r.Keys == form.Keys + {name}
    ensures inputType == "checkbox" && name == "declaration" ==> r[name] == Flag(checked)
    ensures !(inputType == "checkbox" && name == "declaration") ==> r[name] == Text(value)
    ensures forall k :: k in form && k != name ==> r[k] == form[k]
  {
    if inputType == "checkbox" && name == "declaration" then form[name := Flag(checked)]
    else form[name := Text(value)]
  }

  /** `handleFileChange`: the chosen file's name, `''` when none was chosen. */
  function FileChange(form: ApplicantForm, name: string, fileName: Option<string>): (r: ApplicantForm)
    ensures r.Keys == form.Keys + {name}
    ensures r[name] == Text(if fileName.Some? then fileName.value else "")
    ensures forall k :: k in form && k != name ==> r[k] == form[k]
  {
    form[name := Text(fileName.GetOr(""))]
  }

  // ---------------------------------------------------------------------------
  // Languages
  // ---------------------------------------------------------------------------

  /** `.map(lang => lang.trim())` */
  function TrimAll(parts: seq<string>): (r: seq<string>)
    ensures |r| == |parts| && forall k :: 0 <= k < |r| ==> r[k] == Trim(parts[k])
  {
    if |parts| == 0 then [] else [Trim(parts[0])] + TrimAll(parts[1..])
  }

  /** `trim` only removes characters, so it cannot bring in a separator. */
  lemma TrimKeepsOut(s: string, c: char)
    requires c !in s
    ensures c !in Trim(s)
  {
    var a := TrimStart(s);
    TrimStartShape(s);
    TrimEndShape(a);
    assert a == s[|s| - |a|..];
    assert Trim(s) == a[..|Trim(s)|];
  }

  /** Trimmed comma-free pieces stay trimmed and comma-free. */
  lemma TrimmedPieces(pieces: seq<string>)
    requires forall k :: 0 <= k < |pieces| ==> ',' !in pieces[k]
    ensures forall k :: 0 <= k < |pieces| ==> Trimmed(TrimAll(pieces)[k]) && ',' !in TrimAll(pieces)[k]
  {
    forall k | 0 <= k < |pieces| ensures Trimmed(Trim(pieces[k])) && ',' !in Trim(pieces[k]) {
      TrimIsCore(pieces[k]);
      TrimKeepsOut(pieces[k], ',');
    }
  }

  /** A language as the box stores it: not empty, trimmed, without a comma. */
  predicate Language(l: string) {
    l != "" && Trimmed(l) && ',' !in l
  }

  /** The languages box's `onChange`: split at commas, trim each piece, drop the empty
      ones. Every language it stores is well formed. */
  function ParseLanguages(text: string): (r: seq<string>)
    ensures forall k :: 0 <= k < |r| ==> Language(r[k])
  {
    var pieces := Split(text, ',');
    TrimmedPieces(pieces);
    Filter(TrimAll(pieces), NonEmpty())
  }

  /** `languagesKnown.join(', ')`: the text the box shows. */
  function JoinLanguages(langs: seq<string>): (r: string)
    ensures |langs| == 0 ==> r == ""
    ensures |langs| == 1 ==> r == langs[0]
  {
    if |langs| == 0 then ""
    else if |langs| == 1 then langs[0]
    else langs[0] + ", " + JoinLanguages(langs[1..])
  }

  lemma TrimAllFront(p: string, rest: seq<string>)
    ensures TrimAll([p] + rest) == [Trim(p)] + TrimAll(rest)
  {
    assert ([p] + rest)[1..] == rest;
  }

  /** Parsing text that starts with a piece without commas: that piece's language, if
      any, comes first. */
  lemma ParseStep(p: string, q: string, text: string)
    requires ',' !in p && text == p + [','] + q
    ensures ParseLanguages(text) == Filter([Trim(p)], NonEmpty()) + ParseLanguages(q)
  {
    SplitAppend(p, ',', q);
    var rest := Split(q, ',');
    var trimmed := TrimAll(Split(text, ','));
    TrimAllFront(p, rest);
    assert trimmed == [Trim(p)] + TrimAll(rest);
    FilterConcat([Trim(p)], TrimAll(rest), NonEmpty());
  }

  /** Parsing text without a comma: its trimmed text, if that is not empty. */
  lemma {:induction false} ParseSingle(p: string)
    requires ',' !in p
    ensures ParseLanguages(p) == Filter([Trim(p)], NonEmpty())
  {
    SplitNoSep(p, ',');
    var t := TrimAll(Split(p, ','));
    assert |t| == 1 && t[0] == Trim(p);
    assert t == [Trim(p)];
  }

  /** One language behind the lead parses to itself. */
  lemma LeadingLanguage(lead: string, l: string)
    requires lead == "" || lead == " "
    requires Language(l)
    ensures ',' !in lead + l
    ensures Filter([Trim(lead + l)], NonEmpty()) == [l]
  {
    TrimOfTrimmed(l);
    if lead == "" {
      assert lead + l == l;
    }
    assert Trim(lead + l) == l;
  }

  /** `', '` between the first language and the rest. */
  lemma JoinUnfold(lead: string, langs: seq<string>)
    requires |langs| >= 2
    ensures lead + JoinLanguages(langs) == (lead + langs[0]) + [','] + (" " + JoinLanguages(langs[1..]))
  {
  }

  /** A language and a comma in front of some text: that language, then the text's. */
  lemma ParseFront(lead: string, l: string, q: string, text: string)
    requires lead == "" || lead == " "
    requires Language(l) && text == (lead + l) + [','] + q
    ensures ParseLanguages(text) == [l] + ParseLanguages(q)
  {
    LeadingLanguage(lead, l);
    ParseStep(lead + l, q, text);
  }

  /** The first language, then whatever the text after its comma parses to. */
  lemma ParseJoinStep(lead: string, langs: seq<string>)
    requires lead == "" || lead == " "
    requires |langs| >= 2 && Language(langs[0])
    requires ParseLanguages(" " + JoinLanguages(langs[1..])) == langs[1..]
    ensures ParseLanguages(lead + JoinLanguages(langs)) == langs
  {
    JoinUnfold(lead, langs);
    ParseFront(lead, langs[0], " " + JoinLanguages(langs[1..]), lead + JoinLanguages(langs));
    assert langs == [langs[0]] + langs[1..];
  }

  /** A single language behind the lead parses to itself. */
  lemma ParseOne(lead: string, l: string, text: string)
    requires lead == "" || lead == " "
    requires Language(l) && text == lead + JoinLanguages([l])
    ensures ParseLanguages(text) == [l]
  {
    LeadingLanguage(lead, l);
    assert text == lead + l;
    ParseSingle(lead + l);
  }

  /** The round trip behind one leading space (the one `', '` leaves before every
      language but the first). */
  lemma {:induction false} ParseJoinBehind(lead: string, langs: seq<string>)
    requires lead == "" || lead == " "
    requires |langs| >= 1 && forall k :: 0 <= k < |langs| ==> Language(langs[k])
    ensures ParseLanguages(lead + JoinLanguages(langs)) == langs
    decreases |langs|
  {
    if |langs| == 1 {
      ParseOne(lead, langs[0], lead + JoinLanguages(langs));
    } else {
      var rest := langs[1..];
      assert forall k :: 0 <= k < |rest| ==> Language(rest[k]) by {
        forall k | 0 <= k < |rest| ensures Language(rest[k]) {
          assert rest[k] == langs[k + 1];
        }
      }
      ParseJoinBehind(" ", rest);
      ParseJoinStep(lead, langs);
    }
  }

  /** What the box shows parses back to the stored list. */
  lemma ParseJoin(langs: seq<string>)
    requires forall k :: 0 <= k < |langs| ==> Language(langs[k])
    ensures ParseLanguages(JoinLanguages(langs)) == langs
  {
    if |langs| == 0 {
      assert Split("", ',') == [""];
      assert TrimAll([""]) == [""];
    } else {
      ParseJoinBehind("", langs);
      assert "" + JoinLanguages(langs) == JoinLanguages(langs);
    }
  }

  /** Re-reading the box after it re-renders changes nothing: parsing is idempotent on
      its own output. */
  lemma ParseLanguagesStable(text: string)
    ensures ParseLanguages(JoinLanguages(ParseLanguages(text))) == ParseLanguages(text)
  {
    ParseJoin(ParseLanguages(text));
  }

  /** The languages box's `onChange` on the form. */
  function LanguagesChange(form: ApplicantForm, text: string): (r: ApplicantForm)
    ensures r.Keys == form.Keys + {"languagesKnown"}
    ensures r["languagesKnown"] == List(ParseLanguages(text))
    ensures forall k :: k in form && k != "languagesKnown" ==> r[k] == form[k]
  {
    form["languagesKnown" := List(ParseLanguages(text))]
  }

  // ---------------------------------------------------------------------------
  // Submit
  // ---------------------------------------------------------------------------

  /** The page's state besides the form fields. */
  datatype FormState = FormState(data: ApplicantForm, error: string, submitted: bool)

  /** `handleSubmit`: the fields handed to `createOnboardingSubmission` and the state
      afterwards. The error is cleared first; an unticked declaration sends nothing and
      shows its message. */
  function Submit(s: FormState): (r: (Option<ApplicantForm>, FormState))
    ensures r.0.Some? <==> FieldTruthy(s.data, "declaration")
    ensures r.0.Some? ==> r.0.value == s.data && r.1 == s.(error := "", submitted := true)
    ensures r.0.None? ==> r.1 == s.(error := DeclarationError)
  {
    if !FieldTruthy(s.data, "declaration") then (None, s.(error := DeclarationError))
    else (Some(s.data), s.(error := "", submitted := true))
  }

  /** A fresh form is refused; ticking the declaration is what lets it through, whatever
      was typed before, and unticking it refuses it again. */
  lemma DeclarationGatesSubmit(currentYear: int, form: ApplicantForm, checked: bool)
    ensures Submit(FormState(InitialForm(currentYear), "", false)).0.None?
    ensures var ticked := Change(form, "declaration", "on", "checkbox", checked);
      Submit(FormState(ticked, "", false)).0 == (if checked then Some(ticked) else None)
  {
  }

  /** Typing into any other input keeps the declaration as it was, so it keeps deciding
      the submit. */
  lemma TypingKeepsDeclaration(form: ApplicantForm, name: string, value: string, inputType: string, checked: bool)
    requires name != "declaration"
    ensures FieldTruthy(Change(form, name, value, inputType, checked), "declaration") <==> FieldTruthy(form, "declaration")
  {
  }
}
