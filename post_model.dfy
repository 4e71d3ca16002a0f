/** The Post schema (server/src/models/post.model.js): field constraints and defaults. */
module PostModel {
  import opened Optional
  import opened UserModel
  import opened JsText

  const MinTitleLength: nat := 5
  const MaxTitleLength: nat := 50
  const DefaultCategory: string := "general"
  const PointKind: string := "Point"

  /**
   * The `location` sub-document. `type` is unset unless given and may only be
   * "Point"; `coordinates` is a number array, `[]` by default as for every array
   * path, and holds `[longitude, latitude]` when set.
   */
  datatype Location = Location(kind: Option<string>, coordinates: seq<real>)

  const NoLocation: Location := Location(None, [])

  predicate ValidLocation(l: Location) {
    l.kind.Some? ==> l.kind.value == PointKind
  }

  /** A point at the given position, coordinates in GeoJSON order. */
  function PointAt(longitude: real, latitude: real): (l: Location)
    ensures ValidLocation(l) && l.kind == Some(PointKind)
    ensures |l.coordinates| == 2
  {
    Location(Some(PointKind), [longitude, latitude])
  }

  function Longitude(l: Location): real
    requires |l.coordinates| == 2
  {
    l.coordinates[0]
  }

  function Latitude(l: Location): real
    requires |l.coordinates| == 2
  {
    l.coordinates[1]
  }

  /** A point gives back the longitude and latitude it was built from, in that order. */
  lemma PointAtRoundTrip(longitude: real, latitude: real)
    ensures Longitude(PointAt(longitude, latitude)) == longitude
    ensures Latitude(PointAt(longitude, latitude)) == latitude
  {
  }

  /**
   * A post document; `createdAt` is an integer clock reading, `userId` the owner
   * (a required reference, so never absent).
   */
  datatype Post = Post(
    title: string,
    content: string,
    image: Option<string>,
    category: string,
    resolved: bool,
    createdAt: int,
    userId: UserId,
    isDeleted: bool,
    location: Location)

  /** `new Post({title, content, userId})` at clock reading `now`, with the schema's defaults. */
  function NewPost(title: string, content: string, owner: UserId, now: int): (p: Post)
    ensures p.title == title && p.content == content && p.userId == owner
    ensures p.image == None && p.category == DefaultCategory
    ensures !p.resolved && !p.isDeleted && p.createdAt == now
    ensures p.location == NoLocation
  {
    Post(title, content, None, DefaultCategory, false, now, owner, false, NoLocation)
  }

  /**
   * The schema's validators: title 5 to 50 UTF-16 code units, content required
   * (non-empty), location kind.
   */
  predicate ValidPost(p: Post) {
    && MinTitleLength <= Utf16Length(p.title) <= MaxTitleLength
    && |p.content| > 0
    && ValidLocation(p.location)
  }

  /** A new post passes validation exactly when its title and content meet the bounds. */
  lemma NewPostValid(title: string, content: string, owner: UserId, now: int)
    ensures ValidPost(NewPost(title, content, owner, now)) <==>
      MinTitleLength <= Utf16Length(title) <= MaxTitleLength && |content| > 0
  {
  }
}
