/**
 * The inline post form on the home page: four fields, a live word count of the untrimmed
 * description, a share button enabled only for a complete form, and a reset of every field
 * once the post has been sent.
 */
module PostInput {
  import opened Common
  import opened Strings
  import opened Posts
  import opened PostsApi
  import opened ImageList

  datatype Fields = Fields(
    productTitle: string,
    productDescription: string,
    productImage: string,
    featuredImages: seq<ImageEntry>)

  const Empty: Fields := Fields("", "", "", [])

  /** The body the form sends: the four fields as typed, plus `type: 'product'`. */
  datatype SentPost = SentPost(kind: string, body: PostBody)

  /** The live counter: words of the untrimmed description, split on spaces. */
  function Words(f: Fields): nat {
    WordCount(f.productDescription)
  }

  predicate CanAddMoreImages(f: Fields) {
    |f.featuredImages| < MaxFeaturedImages
  }

  /** `isFormValid`, which enables the share button. */
  predicate IsFormValid(f: Fields) {
    && !IsBlank(f.productTitle) && !IsBlank(f.productDescription)
    && Words(f) <= MaxWords
    && f.productImage != "" && |f.featuredImages| >= 1
  }

  /** The description box keeps at most 500 UTF-16 code units (`maxLength`), the schema's
      limit: the longest prefix of the text that fits, cut between characters. */
  function TypeDescription(f: Fields, text: string): (r: Fields)
    ensures Utf16Length(r.productDescription) <= MaxDescriptionLength
    ensures r.productDescription <= text
    ensures Utf16Length(text) <= MaxDescriptionLength ==> r.productDescription == text
    ensures r.productDescription == text
            || Utf16Length(text[..|r.productDescription| + 1]) > MaxDescriptionLength
    ensures r == f.(productDescription := r.productDescription)
  {
    f.(productDescription := Utf16Prefix(text, MaxDescriptionLength))
  }

  /** Uploading selected featured files: at most as many as there is room for, each answer's
      entry appended in turn. */
  function UploadFeatured<T>(f: Fields, files: seq<T>, replyOf: T -> Reply): (r: Fields)
    ensures |f.featuredImages| <= MaxFeaturedImages ==> |r.featuredImages| <= MaxFeaturedImages
    ensures |f.featuredImages| == MaxFeaturedImages ==> r == f
    ensures r == f.(featuredImages := r.featuredImages) && f.featuredImages <= r.featuredImages
  {
    f.(featuredImages := AddUploads(f.featuredImages, files, replyOf))
  }

  /** Removing the featured image at `index`. */
  function RemoveFeatured(f: Fields, index: int): (r: Fields)
    ensures 0 <= index < |f.featuredImages| ==>
              r.featuredImages == f.featuredImages[..index] + f.featuredImages[index + 1..]
    ensures !(0 <= index < |f.featuredImages|) ==> r == f
    ensures r == f.(featuredImages := r.featuredImages)
  {
    RemoveAtDeletes(f.featuredImages, index);
    f.(featuredImages := RemoveAt(f.featuredImages, index))
  }

  /** `sendPost`: the body carries the fields as typed, and afterwards the form is empty
      whatever the server answered. */
  function SendPost(f: Fields): (r: (SentPost, Fields))
    ensures r.0.kind == "product"
    ensures r.0.body == PostBody(Some(f.productTitle), Some(f.productDescription), Some(f.productImage),
                                 Some(f.featuredImages))
    ensures r.1 == Empty && !IsFormValid(r.1)
  {
    assert Trim("") == "";
    (SentPost("product", PostBody(Some(f.productTitle), Some(f.productDescription), Some(f.productImage),
                                  Some(f.featuredImages))), Empty)
  }

  /** The form and the server agree: a form the share button accepts, with the image cap
      kept, passes every check of the submission endpoint, and a form the button refuses
      for its fields fails one of them. */
  lemma FormValidIsAcceptable(f: Fields)
    requires |f.featuredImages| <= MaxFeaturedImages
    ensures IsFormValid(f) <==> Acceptable(SendPost(f).0.body)
  {
  }
}
