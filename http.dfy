/**
 * The JSON responses the backend handlers send: a status code and a body.
 * Response headers (Content-Type, CORS) are not part of the model.
 */
module Http {
  import opened Wrappers
  import opened Store

  /** The `user` object of the sign-in and creator-request responses. */
  datatype UserView = UserView(userId: UserId, email: string, name: string, picture: string, role: string)

  /** SELECT UserId, Email, Name, ProfilePicture, Role, CreatedAt FROM Users. */
  datatype UserRecord = UserRecord(userId: UserId, email: string, name: string, picture: string, role: string, createdAt: nat)

  /**
   * A photo as the listing and detail SELECTs return it, with the creator's
   * name and picture from the joined Users row; `creatorId` is the joined
   * u.UserId, which only the detail SELECTs include.
   */
  datatype PhotoRow = PhotoRow(
    photoId: PhotoId,
    title: Option<string>, caption: Option<string>, location: Option<string>,
    imageUrl: Option<string>, thumbnailUrl: Option<string>,
    views: nat, likes: int, createdAt: nat, updatedAt: nat,
    creatorName: string, creatorPicture: string, creatorId: Option<UserId>)

  /** A comment as the detail SELECT returns it; `authorId` is c.UserId where the SELECT includes it. */
  datatype CommentRow = CommentRow(
    commentId: CommentId, text: string, createdAt: nat, authorId: Option<UserId>,
    userName: string, userPicture: string)

  /** The `comment` object of the checked add-comment response. */
  datatype PostedComment = PostedComment(
    commentId: CommentId, text: string, createdAt: nat, userName: string, userPicture: string)

  datatype Body =
    | Error(error: string)
    | Message(message: string)
    | WithUser(user: UserView, message: string)
    | UserFound(record: UserRecord)
    | Toggled(liked: bool, message: string)
    | CommentAdded(commentId: CommentId, message: string)
    | CommentPosted(comment: PostedComment, message: string)
    | PhotoAdded(photoId: PhotoId, message: string)
    | PhotoPage(photos: seq<PhotoRow>, page: int, limit: int, total: nat, totalPages: int)
    | PhotoDetail(photo: PhotoRow, comments: seq<CommentRow>)
    | FileStored(imageUrl: string, fileName: string, uploadMessage: Option<string>)

  datatype Response = Response(status: nat, body: Body)

  /** What a request leaves behind: the tables after it and the response it sent. */
  datatype Outcome = Outcome(tables: Tables, response: Response)

  function Fail(status: nat, error: string): Response {
    Response(status, Error(error))
  }

  /** The `user` object built from a Users row. */
  function ViewOf(id: UserId, u: User): UserView {
    UserView(id, u.email, u.name, u.picture, u.role)
  }
}
