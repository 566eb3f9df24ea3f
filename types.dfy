/** The shared record shapes of the app (`src/types/index.ts`). */
module Types {
  import opened Wrappers

  /** 'anime' | 'manga' | 'book' */
  datatype ContentType = Anime | Manga | Book

  function TypeName(t: ContentType): (r: string)
    ensures r == "anime" <==> t == Anime
    ensures r == "manga" <==> t == Manga
    ensures r == "book" <==> t == Book
  {
    match t
    case Anime => "anime"
    case Manga => "manga"
    case Book => "book"
  }

  datatype User = User(id: string, username: string, displayName: string, avatar: string)

  datatype ContentRef = ContentRef(title: string, contentType: ContentType, episode: Option<int>, chapter: Option<int>)

  datatype Post = Post(
    id: string,
    user: User,
    content: string,
    images: Option<seq<string>>,
    contentRef: Option<ContentRef>,
    rating: Option<int>,
    likes: int,
    comments: int,
    shares: int,
    timestamp: int,        // the ISO timestamp, as milliseconds
    isLiked: bool,
    isBookmarked: bool)
}
