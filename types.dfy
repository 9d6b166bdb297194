/**
 * The records of src/types/index.ts. Dates are integer timestamps in
 * milliseconds; optional fields are `Option`s.
 */
module Types {
  import opened Wrappers

  /** A post's status: exactly four values. */
  datatype Status = Draft | Scheduled | Published | Failed

  /** The string literal of each status, as stored and as compared with the history's status filter. */
  function StatusName(s: Status): (r: string)
    ensures r != "all"
  {
    match s
    case Draft => "draft"
    case Scheduled => "scheduled"
    case Published => "published"
    case Failed => "failed"
  }

  /** Distinct statuses have distinct names. */
  lemma StatusNameInjective(a: Status, b: Status)
    ensures StatusName(a) == StatusName(b) <==> a == b
  {
  }

  /** A created post: `id`, `content`, `platforms`, `status` and `createdAt` are required; the rest optional. */
  datatype Post = Post(
    id: string,
    content: string,
    images: Option<seq<string>>,
    platforms: seq<string>,   // ordered platform ids; duplicates are not excluded by the type
    status: Status,
    createdAt: int,
    scheduledAt: Option<int>,
    publishedAt: Option<int>)

  /** `Omit<Post, 'id' | 'createdAt'>`: what the compose form hands to the store. */
  datatype PostDraft = PostDraft(
    content: string,
    images: Option<seq<string>>,
    platforms: seq<string>,
    status: Status,
    scheduledAt: Option<int>,
    publishedAt: Option<int>)

  /** A platform of the registry; all six fields are required. */
  datatype SocialPlatform = SocialPlatform(
    id: string,
    name: string,
    icon: string,
    color: string,
    connected: bool,
    requiresAuth: bool)
}
