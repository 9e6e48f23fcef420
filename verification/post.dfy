/**
 * The `Post` document (a product submission) and the checks its schema applies on every save.
 */
module Posts {
  import opened Common
  import opened Strings

  /** Lifecycle of a post; `Scheduled` is allowed by the schema but no handler assigns it. */
  datatype Status = Draft | Scheduled | Published

  const MaxTitleLength: int := 200
  const MaxDescriptionLength: int := 500
  const MinFeaturedImages: int := 1
  const MaxFeaturedImages: int := 4

  /** The values the schema allows for `category`. */
  const Categories: seq<string> := [
    "Productivity & Collaboration",
    "Marketing & Analytics",
    "Customer Relationship Management (CRM)",
    "Project Management",
    "E-commerce & Sales",
    "Communication & Messaging",
    "Design & Creative",
    "Developer Tools",
    "Finance & Accounting",
    "HR & Recruitment",
    "Education & E-learning",
    "Healthcare & Medical",
    "Security & Privacy",
    "Data & Business Intelligence",
    "AI & Machine Learning",
    "Social Media Management",
    "Content Management",
    "Automation & Workflow",
    "File Storage & Management",
    "Customer Support & Service",
    "Other"
  ]

  /** An entry of a featured-image list: the address an upload answered with, or `None` where
      its answer carried no address (`undefined` in the page, `null` once the list is sent as
      JSON). */
  type ImageEntry = Option<string>

  /** The fields of a post this model keeps; likes, mentions, retweets, comments and the
      secondary `categories` list are not part of it. `kind` is the schema's `type`. */
  datatype Post = Post(
    id: PostId,
    author: UserId,
    kind: string,
    productTitle: string,
    productDescription: string,
    productImage: string,
    featuredImages: seq<ImageEntry>,
    category: Option<string>,
    productUrl: Option<string>,
    status: Status,
    scheduledWeek: Option<int>,
    publishedAt: Option<int>,
    completed: bool,
    createdAt: int)

  /** A post document built from the given fields; every other field takes its default. */
  function NewPost(id: PostId, author: UserId, title: string, description: string, image: string,
                   featured: seq<ImageEntry>, category: Option<string>, url: Option<string>,
                   createdAt: int): (p: Post)
    ensures p.kind == "product" && p.status == Draft && !p.completed
    ensures p.scheduledWeek.None? && p.publishedAt.None?
    ensures p.id == id && p.author == author && p.createdAt == createdAt
    ensures p.category == category && p.productUrl == url
  {
    Post(id, author, "product", title, description, image, featured, category, url,
         Draft, None, None, false, createdAt)
  }

  /** Mongoose's `required` on a string: present and not the empty string. */
  predicate RequiredString(s: Option<string>) {
    s.Some? && s.value != ""
  }

  /** The schema's validators: required fields, length limits (counted, as JavaScript counts,
      in UTF-16 code units), 1 to 4 featured images and the category enumeration. */
  predicate SchemaValid(p: Post) {
    && p.kind == "product"
    && p.productTitle != "" && Utf16Length(p.productTitle) <= MaxTitleLength
    && p.productDescription != "" && Utf16Length(p.productDescription) <= MaxDescriptionLength
    && p.productImage != ""
    && MinFeaturedImages <= |p.featuredImages| <= MaxFeaturedImages
    && RequiredString(p.category) && p.category.value in Categories
    && RequiredString(p.productUrl)
  }

  /** The status fields a save never validates against: changing the status, the scheduled
      week or the publication time keeps a valid post valid. */
  lemma StatusChangeKeepsValidity(p: Post, s: Status, week: Option<int>, at: Option<int>)
    ensures SchemaValid(p) <==> SchemaValid(p.(status := s, scheduledWeek := week, publishedAt := at))
  {
  }
}
