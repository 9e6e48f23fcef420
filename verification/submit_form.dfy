/**
 * The three-step submission wizard: step 1 asks for name, description and product address,
 * step 2 for the logo and featured images, step 3 reviews and submits. Each forward move checks
 * the current step's fields and records one error message per offending field; editing a field
 * clears that field's message. Whether an address parses (`new URL`) is a parameter.
 */
module SubmitForm {
  import opened Common
  import opened Strings
  import opened Posts
  import opened Store
  import opened Api
  import opened PostsApi
  import opened ImageList

  datatype Field = ProductTitle | ProductDescription | ProductUrl | ProductImage | FeaturedImages

  datatype FormData = FormData(
    productTitle: string,
    productDescription: string,
    productUrl: string,
    productImage: string,
    featuredImages: seq<ImageEntry>)

  /** The error messages shown under the fields; a cleared message stays as `""`. */
  type Errors = map<Field, string>

  const TitleRequired: string := "Product name is required"
  const DescriptionRequired: string := "Product description is required"
  const TooLong: string := "Description must be 100 words or less"
  const UrlRequired: string := "Product URL is required"
  const UrlInvalid: string := "Please enter a valid URL"
  const LogoRequired: string := "Product logo is required"
  const FeaturedRequired: string := "At least 1 featured image is required"

  /** The wizard's word count: the description is trimmed before it is split on spaces. */
  function TrimmedWordCount(s: string): nat {
    WordCount(Trim(s))
  }

  /** What step 1 accepts. */
  predicate Step1Valid(f: FormData, validUrl: string -> bool) {
    && !IsBlank(f.productTitle)
    && !IsBlank(f.productDescription) && TrimmedWordCount(f.productDescription) <= MaxWords
    && !IsBlank(f.productUrl) && validUrl(f.productUrl)
  }

  /** What step 2 accepts. */
  predicate Step2Valid(f: FormData) {
    f.productImage != "" && |f.featuredImages| > 0
  }

  function TitleMessage(f: FormData): (m: Option<string>)
    ensures m.Some? <==> IsBlank(f.productTitle)
    ensures m.Some? ==> m.value == TitleRequired
  {
    if IsBlank(f.productTitle) then Some(TitleRequired) else None
  }

  function DescriptionMessage(f: FormData): (m: Option<string>)
    ensures m.Some? <==> IsBlank(f.productDescription) || TrimmedWordCount(f.productDescription) > MaxWords
    ensures m.Some? ==> m.value == if IsBlank(f.productDescription) then DescriptionRequired else TooLong
  {
    if IsBlank(f.productDescription) then Some(DescriptionRequired)
    else if TrimmedWordCount(f.productDescription) > MaxWords then Some(TooLong)
    else None
  }

  /** The address test is made on the untrimmed text. */
  function UrlMessage(f: FormData, validUrl: string -> bool): (m: Option<string>)
    ensures m.Some? <==> IsBlank(f.productUrl) || !validUrl(f.productUrl)
    ensures m.Some? ==> m.value == if IsBlank(f.productUrl) then UrlRequired else UrlInvalid
  {
    if IsBlank(f.productUrl) then Some(UrlRequired)
    else if !validUrl(f.productUrl) then Some(UrlInvalid)
    else None
  }

  /** The error map holding the given messages of the three step-1 fields. */
  function Collect(title: Option<string>, description: Option<string>, url: Option<string>): (e: Errors)
    ensures e.Keys <= {ProductTitle, ProductDescription, ProductUrl}
    ensures e == map[] <==> title.None? && description.None? && url.None?
    ensures ProductTitle in e <==> title.Some?
    ensures ProductTitle in e ==> e[ProductTitle] == title.value
    ensures ProductDescription in e <==> description.Some?
    ensures ProductDescription in e ==> e[ProductDescription] == description.value
    ensures ProductUrl in e <==> url.Some?
    ensures ProductUrl in e ==> e[ProductUrl] == url.value
  {
    var e1: Errors := if title.Some? then map[ProductTitle := title.value] else map[];
    var e2 := if description.Some? then e1[ProductDescription := description.value] else e1;
    var e3 := if url.Some? then e2[ProductUrl := url.value] else e2;
    assert ProductTitle in e3 <==> ProductTitle in e1;
    assert e3 == map[] ==> ProductTitle !in e3 && ProductDescription !in e3 && ProductUrl !in e3;
    e3
  }

  /** The messages `validateStep1` records: one per offending field of step 1. */
  function Step1Errors(f: FormData, validUrl: string -> bool): (e: Errors)
    ensures e == map[] <==> Step1Valid(f, validUrl)
    ensures e.Keys <= {ProductTitle, ProductDescription, ProductUrl}
    ensures ProductTitle in e <==> IsBlank(f.productTitle)
    ensures ProductTitle in e ==> e[ProductTitle] == TitleRequired
    ensures ProductDescription in e <==>
              IsBlank(f.productDescription) || TrimmedWordCount(f.productDescription) > MaxWords
    ensures ProductDescription in e ==>
              e[ProductDescription] == if IsBlank(f.productDescription) then DescriptionRequired else TooLong
    ensures ProductUrl in e <==> IsBlank(f.productUrl) || !validUrl(f.productUrl)
    ensures ProductUrl in e ==> e[ProductUrl] == if IsBlank(f.productUrl) then UrlRequired else UrlInvalid
  {
    Collect(TitleMessage(f), DescriptionMessage(f), UrlMessage(f, validUrl))
  }

  /** The messages `validateStep2` records. */
  function Step2Errors(f: FormData): (e: Errors)
    ensures e == map[] <==> Step2Valid(f)
    ensures e.Keys <= {ProductImage, FeaturedImages}
    ensures ProductImage in e <==> f.productImage == ""
    ensures ProductImage in e ==> e[ProductImage] == LogoRequired
    ensures FeaturedImages in e <==> f.featuredImages == []
    ensures FeaturedImages in e ==> e[FeaturedImages] == FeaturedRequired
  {
    var e1: Errors := if f.productImage == "" then map[ProductImage := LogoRequired] else map[];
    var e2 := if |f.featuredImages| == 0 then e1[FeaturedImages := FeaturedRequired] else e1;
    assert ProductImage in e2 <==> ProductImage in e1;
    assert Step2Valid(f) ==> e1 == map[] && e2 == e1;
    assert e2 == map[] ==> ProductImage !in e2 && FeaturedImages !in e2;
    e2
  }

  datatype Wizard = Wizard(step: int, form: FormData, errors: Errors)

  const Start: Wizard := Wizard(1, FormData("", "", "", "", []), map[])

  /** "Next": steps 1 and 2 move on only when their checks pass (the messages are replaced
      either way); step 3 stays put. */
  function Next(w: Wizard, validUrl: string -> bool): (r: Wizard)
    ensures r.form == w.form
    ensures 1 <= w.step <= 3 ==> 1 <= r.step <= 3
    ensures w.step == 1 ==> r.errors == Step1Errors(w.form, validUrl)
    ensures w.step == 1 ==> (r.step == 2 <==> Step1Valid(w.form, validUrl)) && (r.step == 1 || r.step == 2)
    ensures w.step == 2 ==> r.errors == Step2Errors(w.form)
    ensures w.step == 2 ==> (r.step == 3 <==> Step2Valid(w.form)) && (r.step == 2 || r.step == 3)
    ensures w.step == 3 ==> r == w
  {
    if w.step == 1 && Step1Errors(w.form, validUrl) != map[] then w.(errors := Step1Errors(w.form, validUrl))
    else if w.step == 2 && Step2Errors(w.form) != map[] then w.(errors := Step2Errors(w.form))
    else
      var checked := if w.step == 1 then w.(errors := Step1Errors(w.form, validUrl))
                     else if w.step == 2 then w.(errors := Step2Errors(w.form))
                     else w;
      if checked.step < 3 then checked.(step := checked.step + 1) else checked
  }

  /** "Previous": back one step, never below step 1. */
  function Previous(w: Wizard): (r: Wizard)
    ensures r.form == w.form && r.errors == w.errors
    ensures 1 <= w.step <= 3 ==> 1 <= r.step <= 3
    ensures w.step > 1 ==> r.step == w.step - 1
    ensures w.step <= 1 ==> r == w
  {
    if w.step > 1 then w.(step := w.step - 1) else w
  }

  /** Editing `field` clears its message when one is showing; no other message changes. */
  function ClearError(errors: Errors, field: Field): (r: Errors)
    ensures r.Keys == errors.Keys
    ensures field in r ==> r[field] == ""
    ensures forall g :: g in errors && g != field ==> r[g] == errors[g]
  {
    if field in errors && errors[field] != "" then errors[field := ""] else errors
  }

  /** `handleInputChange` for one of the text fields. */
  function EditText(w: Wizard, field: Field, value: string): (r: Wizard)
    requires field != FeaturedImages
    ensures r.step == w.step && r.errors == ClearError(w.errors, field)
    ensures field == ProductTitle ==> r.form == w.form.(productTitle := value)
    ensures field == ProductDescription ==> r.form == w.form.(productDescription := value)
    ensures field == ProductUrl ==> r.form == w.form.(productUrl := value)
    ensures field == ProductImage ==> r.form == w.form.(productImage := value)
  {
    var f := match field
      case ProductTitle => w.form.(productTitle := value)
      case ProductDescription => w.form.(productDescription := value)
      case ProductUrl => w.form.(productUrl := value)
      case ProductImage => w.form.(productImage := value);
    w.(form := f, errors := ClearError(w.errors, field))
  }

  /** `handleInputChange('featuredImages', images)`. */
  function EditImages(w: Wizard, images: seq<ImageEntry>): (r: Wizard)
    ensures r.step == w.step && r.errors == ClearError(w.errors, FeaturedImages)
    ensures r.form == w.form.(featuredImages := images)
  {
    w.(form := w.form.(featuredImages := images), errors := ClearError(w.errors, FeaturedImages))
  }

  /** What the user can do on the wizard. */
  datatype Action =
    | NextClick(validUrl: string -> bool)
    | PreviousClick
    | Type(field: Field, value: string)
    | Upload(files: seq<Reply>, order: seq<nat>)
    | Remove(index: int)

  /** One action. An upload picks `files`, each given as the reply its upload gets, and keeps
      only the entry of the upload that answers last (`order` gives the answer order, see
      `ImageList.WizardUpload`); each answer goes through `handleInputChange`, so nothing
      changes when every upload is lost. A removal filters the entry out by position. */
  function Act(w: Wizard, a: Action): (r: Wizard)
    ensures 1 <= w.step <= 3 ==> 1 <= r.step <= 3
    ensures |w.form.featuredImages| <= MaxFeaturedImages ==> |r.form.featuredImages| <= MaxFeaturedImages
  {
    match a
    case NextClick(validUrl) => Next(w, validUrl)
    case PreviousClick => Previous(w)
    case Type(field, value) => if field == FeaturedImages then w else EditText(w, field, value)
    case Upload(files, order) =>
      var replyOf := (reply: Reply) => reply;
      if AnyAnswer(ChosenReplies(files, |w.form.featuredImages|, replyOf), order)
      then EditImages(w, WizardUpload(w.form.featuredImages, files, replyOf, order))
      else w
    case Remove(i) =>
      RemoveAtDeletes(w.form.featuredImages, i);
      EditImages(w, RemoveAt(w.form.featuredImages, i))
  }

  function ActAll(w: Wizard, actions: seq<Action>): Wizard
    decreases |actions|
  {
    if actions == [] then w else ActAll(Act(w, actions[0]), actions[1..])
  }

  /** From the first step, any sequence of actions keeps the wizard on step 1, 2 or 3 and
      its featured list at no more than four images. */
  lemma {:induction false} WizardStaysInRange(w: Wizard, actions: seq<Action>)
    requires 1 <= w.step <= 3 && |w.form.featuredImages| <= MaxFeaturedImages
    decreases |actions|
    ensures 1 <= ActAll(w, actions).step <= 3
    ensures |ActAll(w, actions).form.featuredImages| <= MaxFeaturedImages
  {
    if actions != [] {
      WizardStaysInRange(Act(w, actions[0]), actions[1..]);
    }
  }

  /** A refused upload that answers last leaves the list holding one entry without an address,
      and step 2, which only counts the entries, accepts it: a form with no featured image
      passes. */
  lemma RefusedUploadPassesStep2(w: Wizard, files: seq<Reply>, order: seq<nat>)
    requires w.form.featuredImages == [] && w.form.productImage != ""
    requires order != [] && order[|order| - 1] < |files| && order[|order| - 1] < MaxFeaturedImages
    requires files[order[|order| - 1]] == Replied(None)
    ensures var f := Act(w, Upload(files, order)).form;
            f.featuredImages == [None] && Step2Valid(f) && Step2Errors(f) == map[]
  {
    var replyOf := (reply: Reply) => reply;
    var replies := ChosenReplies(files, 0, replyOf);
    var last := order[|order| - 1];
    assert last < |replies| && replies[last] == Replied(None);
    assert AnyAnswer(replies, order);
    LastAnswerKept([], [], replies, order);
  }

  /** The body the wizard posts: the address entered in step 1 is not part of it. */
  function SubmitBody(f: FormData): (b: PostBody)
    ensures b.productTitle == Some(f.productTitle) && b.productDescription == Some(f.productDescription)
    ensures b.productImage == Some(f.productImage) && b.featuredImages == Some(f.featuredImages)
  {
    PostBody(Some(f.productTitle), Some(f.productDescription), Some(f.productImage), Some(f.featuredImages))
  }

  /** "Submit" re-checks step 2 only; when that passes the body is sent. */
  function Submit(w: Wizard): (r: (Wizard, Option<PostBody>))
    ensures r.1.Some? <==> Step2Valid(w.form)
    ensures r.1.Some? ==> r.1.value == SubmitBody(w.form)
    ensures r.0 == w.(errors := Step2Errors(w.form))
  {
    var e := Step2Errors(w.form);
    if e != map[] then (w.(errors := e), None) else (w.(errors := e), Some(SubmitBody(w.form)))
  }

  /** A form that passes both steps, with the image cap kept, is acceptable to the server's
      checks except possibly for the word limit: the server counts words of the untrimmed
      description. Whatever the checks say, the save itself fails, because neither the address
      entered in step 1 nor a category reaches the stored record. */
  lemma SubmittedFormNeverSaved(f: FormData, validUrl: string -> bool, db: Db, uid: Uid, id: PostId, now: int)
    requires Step1Valid(f, validUrl) && Step2Valid(f) && |f.featuredImages| <= MaxFeaturedImages
    ensures WordCount(f.productDescription) <= MaxWords ==> Acceptable(SubmitBody(f))
    ensures CreatePost(db, uid, SubmitBody(f), id, now).db == db
    ensures uid in db.users ==> CreatePost(db, uid, SubmitBody(f), id, now).result == Err(BadRequest)
  {
    CreatePostNeverSaves(db, uid, SubmitBody(f), id, now);
  }

  /** The wizard and the server count words differently: a description opening with a line
      break and a space has one word more for the server than for the wizard, so a description
      of exactly 100 words passes step 1 and is refused by the server as too long. */
  lemma LeadingBreakCountsForServer(s: string, b: PostBody)
    requires s != [] && Trim(s) == s
    requires b.productDescription == Some("\n " + s)
    requires Filled(b.productTitle) && b.productImage.Some? && b.productImage.value != ""
    requires b.featuredImages.Some? && 1 <= |b.featuredImages.value| <= MaxFeaturedImages
    ensures Trim("\n " + s) == s
    ensures TrimmedWordCount("\n " + s) == WordCount(s)
    ensures WordCount("\n " + s) == WordCount(s) + 1
    ensures WordCount(s) == MaxWords ==> Validate(b) == Some(TooManyWords)
  {
    LeadingBreakTrimmed(s);
    LeadingBreakSplit(s);
    if WordCount(s) == MaxWords {
      TooManyWordsRejected(b);
    }
  }

  /** A submission that passes every other check is refused for its word count. */
  lemma TooManyWordsRejected(b: PostBody)
    requires Filled(b.productTitle) && Filled(b.productDescription)
    requires b.productImage.Some? && b.productImage.value != ""
    requires b.featuredImages.Some? && 1 <= |b.featuredImages.value| <= MaxFeaturedImages
    requires WordCount(b.productDescription.value) > MaxWords
    ensures Validate(b) == Some(TooManyWords)
  {
  }

  lemma LeadingBreakTrimmed(s: string)
    requires s != [] && Trim(s) == s
    ensures Trim("\n " + s) == s
  {
    var d := "\n " + s;
    assert !IsWhitespace(s[0]) && !IsWhitespace(s[|s| - 1]);
    assert d[0] == '\n' && d[1..] == " " + s;
    assert (" " + s)[0] == ' ' && (" " + s)[1..] == s;
    assert TrimStart(d) == s;
  }

  lemma LeadingBreakSplit(s: string)
    ensures WordCount("\n " + s) == WordCount(s) + 1
  {
    var d := "\n " + s;
    var rest := Split(d[1..], ' ');
    assert rest == [[]] + Split(s, ' ') by {
      assert d[1..][1..] == s;
    }
    assert rest[0] == [] && rest[1..] == Split(s, ' ');
    assert d[0] == '\n' && [d[0]] + rest[0] == ['\n'];
    assert Split(d, ' ') == [['\n']] + Split(s, ' ');
    assert ([['\n']] + Split(s, ' '))[1..] == Split(s, ' ');
  }
}
