# Photo sharing app: a Dafny model of its request handlers and page logic

This project models the core of a photo sharing web application built on
Azure Functions and SQL Server, with a plain JavaScript front end.

The backend is a set of HTTP handlers over four tables and a blob container:
- `Users`, `Photos`, `Comments` and `Likes`;
- a container for the uploaded image files.

The handlers cover:
- Google sign-in (an upsert by Google id);
- the user lookup and an admin-gated role change;
- the photo listing, with search, newest first and offset paging;
- the photo detail, which counts a view before checking that the photo is published;
- the creator upload, the owner's edit and the owner-or-admin deletion;
- the like toggle;
- comment creation and deletion;
- file upload and deletion in blob storage.

The repository holds several variants of the same handler: a combined app
file, per-area files, and single-function folders. Their checks differ, and
each is modelled as written, as its own module.

How the model is built:
- **Tables.** `Store.Tables` is the database as a value. Each of its member
  functions is one SQL statement. `Store.Db` is a class with the same state,
  and its methods run one statement each.
- **Per-family specifications.** Each family of endpoints is specified once,
  as functions returning the tables after the request and the response sent
  (`UserEndpoints`, `PhotoEndpoints`, `InteractionEndpoints`,
  `StorageEndpoints`).
- **Handlers.** Each source file has its own module. Its handler methods run
  the statements in the order the source does. Each is proved to leave the
  state and the response its specification gives.
- **Ordering.** Within a listing or a comment thread, rows with the same
  `CreatedAt` may come back in any order. The model states the order as an
  existence: some non-increasing enumeration of the rows (`Ranking`).

The front end is modelled in three modules:
- `ApiClient`: endpoint templates and request paths, the listing query,
  `apiRequest`'s error rule, `validateFile` and `formatDate`.
- `AuthSession`: the session state, including the offline sign-in fallback,
  saving and restoring the session, and the role links.
- `GalleryPage`: the gallery page state, the pagination bar (a loop proved
  against a specification), the comment delete button, and comment
  submission.

Several lemmas compare the front end with the backend:
- the photo owner is shown a delete button that the backend refuses;
- the client file check agrees with the server's validated upload;
- an offline session's comment is refused;
- the creator link appears exactly when the upload rule accepts the account.

Inputs that the code gets from the outside world are parameters:
- `now` stands for the clock;
- `rnd` stands for `Math.random`, scaled;
- `verify` is the Google token verification;
- `decode` is `decodeURIComponent`, or the token's payload decoding;
- `boundary` and `parts` are the multipart parse.

## Model

| member | source | states |
|---|---|---|
| JsText.OrElse | backend/functions/photos.js:11 | `x \|\| fallback` on an optional text: the fallback exactly when the value is missing or empty |
| JsText.Trim | frontend/js/photos.js:124 | `String.prototype.trim`: exactly the characters of the input between its maximal leading run of white space and a blank tail; the result is empty iff the input is all white space, and otherwise neither starts nor ends with white space |
| JsText.SpacesFrom | frontend/js/photos.js:124 | the run of white space from an index is maximal: every character in it is white space, and the next one, if any, is not |
| JsText.SpacesBefore | frontend/js/photos.js:124 | the run of white space ending at an index is maximal: every character in it is white space, and the one before it, if inside the range, is not |
| JsText.TrimFixed | backend/functions/add-comment/index.js:54 | a text with no white space at either end is its own trim |
| JsText.TrimIdempotent | backend/functions/add-comment/index.js:54 | trimming a trimmed text changes nothing |
| JsText.IndexOf | frontend/js/api.js:37 | the first match of a pattern, or -1 when there is none |
| JsText.IndexFrom | frontend/js/api.js:37 | the first match at or after a position, or -1 when none follows |
| JsText.IncludesIff | backend/functions/photos.js:28 | `includes` holds iff the pattern occurs somewhere |
| JsText.LastIndexOf | backend/functions/storage-upload/index.js:41 | the last index of a character, or -1 |
| JsText.Expand | frontend/js/api.js:107 | the `$$`, `$&`, `` $` `` and `$'` patterns of a replacement expanded; a replacement without '$' is itself |
| JsText.ReplaceFirst | frontend/js/api.js:37 | `replace` with a string pattern: the first occurrence replaced by the expanded replacement, the string unchanged when the pattern does not occur |
| JsText.ReplaceFirstOfTemplate | frontend/js/api.js:37 | `replace` of a placeholder whose first character does not occur before it yields prefix + the replacement with its `$` patterns expanded + suffix |
| JsText.ReplaceFirstAbsent | frontend/js/api.js:117 | `replace` of a placeholder that does not occur leaves the string unchanged |
| JsText.DecimalString | backend/functions/storage.js:33 | the decimal rendering of a number is a non-empty string of digits |
| JsText.DecimalRoundTrip | backend/functions/storage.js:33 | parsing a rendered number gives it back |
| JsText.DecimalInjective | backend/functions/storage.js:33 | different numbers render differently |
| JsText.Interpolate | backend/functions/storage.js:33 | a template-literal slot: the text, or 'undefined' when it is missing |
| JsText.AsciiUpper | backend/functions/photo-item/index.js:4 | `toUpperCase` keeps the length and upper-cases ASCII letters |
| Ranking.HighestExists | backend/functions/photos.js:31 | a non-empty set of photos has a newest one |
| Ranking.SortDescending | backend/functions/photos.js:31 | `ORDER BY ... DESC`: some ordering of all the keys with non-increasing ranks |
| Ranking.Window | backend/functions/photos.js:31 | `OFFSET ... FETCH NEXT`: at most `count` rows, starting at `offset`, empty beyond the end |
| Ranking.WindowOrdered | backend/functions/photos.js:31 | a window of an ordered enumeration is still ordered, and has no repeats |
| Store.Tables.UserByGoogleId | backend/functions/auth.js:19-22 | the user row with that Google id, or none when no row has it |
| Store.InsertUserAddsOne | backend/functions/auth.js:28-33 | inserting a new Google id keeps the tables well formed and adds exactly that row |
| Store.InsertedUserKeys | backend/functions/auth.js:28-33 | the insert uses the next IDENTITY value, which no row had, and adds exactly that key |
| Store.InsertedGoogleIdUnique | backend/functions/auth.js:19-33 | GoogleId stays unique when the inserted account had no row |
| Store.InsertedUserFound | backend/functions/auth.js:19-33 | after the insert, the lookup by that GoogleId finds the new row |
| Store.LikesOfInsert | backend/functions/interactions.js:42-45 | inserting a new like adds one to that photo's like rows and to no other photo's |
| Store.LikesOfDelete | backend/functions/interactions.js:23-26 | deleting a like takes one from that photo's like rows only |
| Store.AddViewTwice | backend/functions/photos.js:83-86 | two detail fetches add two views and change nothing else |
| Store.Db.constructor | backend/functions/utils/db.js:21-28 | a fresh database is empty and valid |
| Store.Db.FindByGoogleId | backend/functions/auth.js:19-22 | the SELECT by Google id finds the row UserByGoogleId names |
| Store.Db.InsertUser | backend/functions/auth.js:28-33 | the INSERT ... OUTPUT INSERTED adds the row under the next id and keeps the tables valid |
| Store.Db.SetRole | backend/functions/auth.js:140-143 | `UPDATE Users SET Role` on that row only |
| Store.Db.AddView | backend/functions/photos.js:83-86 | `Views = Views + 1` on that photo only |
| Store.Db.AddLikes | backend/functions/interactions.js:27-30 | `Likes = Likes ± 1` on that photo only |
| Store.Db.InsertLike | backend/functions/interactions.js:42-45 | the Likes row is inserted |
| Store.Db.DeleteLike | backend/functions/interactions.js:23-26 | the Likes row is deleted |
| Store.Db.InsertComment | backend/functions/interactions.js:88-93 | the comment is inserted under the next id, which is returned |
| Store.Db.DeleteComment | backend/functions/interactions.js:146 | the comment row is removed |
| Store.Db.InsertPhoto | backend/functions/photos.js:164-170 | the photo is inserted under the next id, which is returned |
| Store.Db.EditPhoto | backend/functions/photos.js:223-229 | Title, Caption, Location and UpdatedAt of that photo are set |
| Store.Db.DeletePhoto | backend/functions/photos.js:283 | the photo row is removed |
| Blobs.BlobUrl | backend/functions/utils/storage.js:29 | a blob's URL is the container URL, then '/', then the blob name |
| Blobs.Container.constructor | backend/functions/utils/storage.js:12-29 | a new container has its URL and no blobs |
| Blobs.Container.Upload | backend/functions/utils/storage.js:12-29 | the blob is stored under its name (replacing any old one) and its URL is returned |
| Blobs.Container.DeleteIfExists | backend/functions/utils/storage.js:36-47 | the blob of that name is gone, whether it existed or not |
| UserEndpoints.SignIn | backend/functions/auth.js:6-69 | 401 iff the token is missing or fails verification; otherwise 200 with the user whose Google id it is, inserted as a consumer under the next id if new, the tables unchanged if not |
| UserEndpoints.SignInAgain | backend/functions/auth.js:19-41 | signing in twice with the same token is the same as once: the second changes nothing and answers the same |
| UserEndpoints.LookupUser | backend/functions/auth.js:71-108 | 404 'User not found' iff the id is absent, else the row's columns |
| UserEndpoints.SignedInUserIsFound | backend/functions/auth.js:71-98 | the account a sign-in returns is then found by the lookup, with the same details |
| UserEndpoints.UpdateRole | backend/functions/auth.js:110-162 | 403 unless adminId names an admin, checked before the role, then 400 for a role outside the three, else 200 with only that row's role changed |
| UserEndpoints.AdminSelfDemotion | backend/functions/auth.js:121-143 | an admin may demote itself, and after that its role changes are refused |
| UserEndpoints.GrantCreator | backend/functions/requestCreator/index.js:20-47 | 400 for a missing id, 404 for an unknown one, else the row's role becomes creator |
| UserEndpoints.GrantCreatorIdempotent | backend/functions/requestCreator/index.js:20-47 | granting twice is the same as granting once |
| PhotoEndpoints.ListedRanks | backend/functions/photos.js:16-31 | the listed photos are exactly those that are published, have a creator row and match the search, ranked by CreatedAt |
| PhotoEndpoints.CeilDiv | backend/functions/photos.js:59 | `Math.ceil(total / limit)`: the least page count whose pages hold all rows |
| PhotoEndpoints.ListingRows | backend/functions/photos.js:16-37 | the listing columns of each photo of the window, in order |
| PhotoEndpoints.RowsOfFacts | backend/functions/photos.js:16-37 | rows drawn from a descending enumeration are listed photos, newest first, none twice |
| PhotoEndpoints.ListingPageFacts | backend/functions/photos.js:9-60 | a served page has at most `limit` rows, each a published and matching photo with a creator, newest first, none twice, and totalPages is the ceiling of total over limit |
| PhotoEndpoints.ListingResponse | backend/functions/photos.js:9-60 | defaults '', 1 and 20; 500 for a rejected window; else the counts and a window of some newest-first order of the listed photos |
| PhotoEndpoints.DetailRow | backend/functions/photos.js:88-99 | the detail columns of the photo with its creator's id, name and picture |
| PhotoEndpoints.CommentRanks | backend/functions/photos.js:109-118 | the photo's comments that have an author row, ranked by CreatedAt |
| PhotoEndpoints.CommentRows | backend/functions/photos.js:109-118 | the comment columns of each comment in order, with the author id where the SELECT has it |
| PhotoEndpoints.ViewCountedFirst | backend/functions/photos.js:83-106 | a fetch of an unpublished photo is refused with 404 but its view is still counted |
| PhotoEndpoints.DetailCommentsFacts | backend/functions/photos.js:109-118 | the detail's comments are the photo's comments, newest first, none twice |
| PhotoEndpoints.DetailResponse | backend/functions/photos.js:88-125 | 404 unless the photo is visible; else its row and its comments in some newest-first order |
| PhotoEndpoints.UploadPhoto | backend/functions/photos.js:142-191 | 403 unless the caller exists with role exactly 'creator' (admins too are refused) and nothing is inserted; else 201 with the next id and one new photo row owned by the caller, with the schema's defaults for views, likes and timestamps assumed |
| PhotoEndpoints.UpdatePhoto | backend/functions/photos.js:193-247 | 404 for a missing photo, 403 unless the caller is the owner, else only Title, Caption, Location and UpdatedAt of that photo change |
| PhotoEndpoints.DeletePhotoUnguarded | backend/functions/photos.js:249-302 | 404 for a missing photo; the owner deletes; a non-owner without a user row gets 500; a non-admin gets 403; an admin deletes |
| PhotoEndpoints.DeletePhotoGuarded | backend/functions/photo-item/index.js:108-156 | 404 for a missing photo; 403 without a user row, or for a non-owner who is not an admin; otherwise only that photo is deleted |
| PhotoEndpoints.DeletionRulesCompared | backend/functions/photo-item/index.js:133 | the two delete rules agree except that a caller without a user row gets 500 from one and 403 from the other |
| PhotoEndpoints.DeletionRemovesOnlyThePhoto | backend/functions/photos.js:283 | a successful deletion, under either rule, removes that photo and leaves every other table alone |
| InteractionEndpoints.ToggleLike | backend/functions/interactions.js:5-69 | liked iff the like was absent; the like set gains or loses exactly that key, and the photo's count moves by one in the same direction |
| InteractionEndpoints.ToggleTwiceRestores | backend/functions/interactions.js:16-49 | toggling twice restores the tables |
| InteractionEndpoints.ToggleKeepsLikesConsistent | backend/functions/interactions.js:16-49 | when every photo's Likes equals its number of like rows, a toggle keeps it so |
| InteractionEndpoints.PostCommentAsSent | backend/functions/interactions.js:71-115 | 400 'Comment text is required' iff the text is missing or blank; else 201 and the text inserted exactly as sent |
| InteractionEndpoints.PostCommentValidated | backend/functions/add-comment/index.js:3-91 | 400 for a missing field or blank text, then 404 for an unknown user, then 404 for a missing or unpublished photo; else 201 with the trimmed text stored and echoed with the author's name and picture |
| InteractionEndpoints.BlankTextRejectedByBoth | backend/functions/add-comment/index.js:8 | both comment rules refuse a blank text and change nothing |
| InteractionEndpoints.DeleteCommentByAuthor | backend/functions/interactions.js:117-165 | 404 for a missing comment, 403 unless the caller is its author, else that comment is deleted |
| InteractionEndpoints.DeleteCommentByAuthorOrAdmin | backend/functions/delete-comment/index.js:3-88 | 400 for a missing id, 404 for a missing comment or user, 403 unless author or admin, else that comment is deleted |
| InteractionEndpoints.DeletionRulesCompared | backend/functions/delete-comment/index.js:54-57 | whatever the author-only rule allows, the author-or-admin rule allows too; beyond that it also lets admins delete |
| InteractionEndpoints.CommentDeletionRemovesOne | backend/functions/interactions.js:146 | a successful deletion removes that one comment and nothing else |
| StorageEndpoints.StampedName | backend/functions/storage.js:33 | `${Date.now()}-${filename}`: the digits of the time, '-', then the client's name |
| StorageEndpoints.StampedNameSplits | backend/functions/storage.js:33 | the first '-' of a stamped name ends the time, so the name splits back into time and client name |
| StorageEndpoints.FirstMatch | backend/functions/storage.js:33 | a match with none before it is the one IndexOf finds |
| StorageEndpoints.UploadValidated | backend/functions/storage.js:6-77 | each check in order with its message: content type, no parts, mime type, then size; when all pass, the first part is stored under the stamped name and its URL returned |
| StorageEndpoints.SizeCapInclusive | backend/functions/storage.js:47 | a file of exactly 10 MiB is stored and one of 10 MiB + 1 byte is refused |
| StorageEndpoints.Extension | backend/functions/storage-upload/index.js:40-42 | empty iff the name is missing or has no '.'; otherwise the suffix from the last '.' on |
| StorageEndpoints.SafeExtension | backend/functions/storage-upload/index.js:43 | the extension when it has at most 10 characters, else exactly its first 10 |
| StorageEndpoints.GeneratedNameUsesOnlyExtension | backend/functions/storage-upload/index.js:44 | two client names with the same extension give the same stored name |
| StorageEndpoints.GeneratedNameShape | backend/functions/storage-upload/index.js:44 | the stored name is time digits, '-', random digits, then the safe extension |
| StorageEndpoints.UploadUnvalidated | backend/functions/storage-upload/index.js:4-65 | 400 without a boundary, 400 without parts; otherwise the first part is stored with its type or 'application/octet-stream', whatever its type or size |
| StorageEndpoints.UnvalidatedAcceptsMore | backend/functions/storage-upload/index.js:4-65 | every multipart upload the validated handler stores, the unvalidated one stores too |
| StorageEndpoints.DeleteBlob | backend/functions/storage.js:79-106 | 200 'File deleted successfully' and the named blob is gone |
| StorageEndpoints.DeleteEncodedBlob | backend/functions/storage-delete/index.js:3-38 | a name that fails to decode gives 500, an empty one 400 'fileName is required', else the decoded blob is deleted |
| StorageEndpoints.MissingNameRefused | backend/functions/storage-delete/index.js:5-17 | a missing or empty name decodes to '' and is refused with 400, touching no blob |
| StorageEndpoints.DeleteBlobIdempotent | backend/functions/storage.js:79-106 | deleting twice is the same as deleting once |
| FunctionsApp.GoogleAuth | backend/functions/functions.js:11-75 | runs the SELECT and the INSERT, with the outcome SignIn gives |
| FunctionsApp.GetPhotos | backend/functions/functions.js:77-139 | runs the listing and count queries without changing the tables; the response is a listing response |
| FunctionsApp.GetPhoto | backend/functions/functions.js:141-205 | counts the view first, then answers with the detail of a published photo (comments without author ids), or with 404 |
| FunctionsApp.LikePhoto | backend/functions/functions.js:207-261 | the statements give the outcome of ToggleLike |
| FunctionsApp.AddComment | backend/functions/functions.js:263-307 | the outcome of PostCommentAsSent |
| FunctionsApp.UploadToStorage | backend/functions/functions.js:309-375 | the container and response of UploadValidated |
| PhotosApp.GetPhotos | backend/functions/photos.js:5-72 | a listing response, with the tables unchanged |
| PhotosApp.GetPhoto | backend/functions/photos.js:74-140 | the view is counted, then the detail response |
| PhotosApp.UploadPhoto | backend/functions/photos.js:142-191 | the outcome of UploadPhoto |
| PhotosApp.UpdatePhoto | backend/functions/photos.js:193-247 | the outcome of UpdatePhoto |
| PhotosApp.DeletePhoto | backend/functions/photos.js:249-302 | the outcome of DeletePhotoUnguarded |
| PhotoItem.MethodOf | backend/functions/photo-item/index.js:4 | the upper-cased method, of the same length as the method sent |
| PhotoItem.Handled | backend/functions/photo-item/index.js:3-175 | the outcome of each method branch: detail, edit, guarded delete, or 405 with nothing changed |
| PhotoItem.Handle | backend/functions/photo-item/index.js:3-175 | GET, PUT and DELETE dispatch to detail (with author ids), edit and guarded delete; any other method gives 405 and changes nothing |
| PhotoItem.MethodCaseIgnored | backend/functions/photo-item/index.js:4 | 'get' and 'GET' select the same branch |
| PhotoItem.OtherMethodsRefused | backend/functions/photo-item/index.js:158-165 | any other method leaves the tables unchanged and answers 405 'Method not allowed' |
| InteractionsApp.LikePhoto | backend/functions/interactions.js:5-69 | the outcome of ToggleLike |
| InteractionsApp.AddComment | backend/functions/interactions.js:71-115 | the outcome of PostCommentAsSent |
| InteractionsApp.DeleteComment | backend/functions/interactions.js:117-165 | the outcome of DeleteCommentByAuthor |
| AuthApp.GoogleAuth | backend/functions/auth.js:6-69 | the outcome of SignIn |
| AuthApp.GetCurrentUser | backend/functions/auth.js:71-108 | the LookupUser response, with the tables unchanged |
| AuthApp.UpdateUserRole | backend/functions/auth.js:110-162 | the outcome of UpdateRole |
| StorageApp.UploadToStorage | backend/functions/storage.js:6-77 | the outcome of UploadValidated |
| StorageApp.DeleteFromStorage | backend/functions/storage.js:79-106 | the outcome of DeleteBlob |
| AddCommentChecked.Handle | backend/functions/add-comment/index.js:3-91 | the outcome of PostCommentValidated |
| AddCommentUnchecked.Handle | backend/functions/addComment/index.js:1-47 | the outcome of PostCommentAsSent |
| DeleteCommentChecked.Handle | backend/functions/delete-comment/index.js:3-88 | the outcome of DeleteCommentByAuthorOrAdmin |
| UploadToStorageFn.Handle | backend/functions/uploadToStorage/index.js:1-73 | the outcome of UploadValidated |
| StorageUploadFn.Handle | backend/functions/storage-upload/index.js:4-65 | the outcome of UploadUnvalidated |
| StorageDeleteFn.Handle | backend/functions/storage-delete/index.js:3-38 | the outcome of DeleteEncodedBlob |
| GetPhotosFn.Handle | backend/functions/getPhotos/index.js:1-65 | a listing response, with the tables unchanged; the total defaults to 0 when the count returns no row |
| GetPhotoFn.Handle | backend/functions/getPhoto/index.js:1-67 | the view is counted, then the detail response |
| UpdateUserRoleFn.Handle | backend/functions/updateUserRole/index.js:3-71 | 400 'adminId and newRole are required' iff either is missing or falsy, checked first; else the outcome of UpdateRole |
| AuthGoogleFn.Handle | backend/functions/auth-google/index.js:4-71 | 400 'Token is required' iff the token is missing or empty, else the outcome of SignIn |
| AuthFn.Handle | backend/functions/auth/index.js:1-68 | the outcome of SignIn |
| AuthUserFn.Handle | backend/functions/auth-user/index.js:3-41 | the LookupUser response, with the tables unchanged |
| LikePhotoChecked.Handle | backend/functions/like-photo/index.js:3-59 | 400 'userId is required' iff the id is missing or 0, else the outcome of ToggleLike |
| LikePhotoUnchecked.Handle | backend/functions/likePhoto/index.js:1-64 | the outcome of ToggleLike |
| PhotoUploadFn.Handle | backend/functions/photo-upload/index.js:3-63 | 400 when userId, title or imageUrl is missing; else the outcome of UploadPhoto |
| RequestCreatorFn.Handle | backend/functions/requestCreator/index.js:3-73 | the UPDATE runs before the existence check, with the outcome of GrantCreator |
| ApiClient.IdText | frontend/js/api.js:37 | the text of an id in a path: the digits of a number, or 'null' / 'undefined'; it never contains '$' |
| ApiClient.GetPhotoPath | frontend/js/api.js:36-39 | '/photos/' followed by the id |
| ApiClient.UpdatePhotoPath | frontend/js/api.js:48-54 | '/photos/' followed by the id |
| ApiClient.DeletePhotoPath | frontend/js/api.js:56-61 | '/photos/<id>?userId=<userId>' |
| ApiClient.LikePhotoPath | frontend/js/api.js:63-69 | '/photos/<id>/like' |
| ApiClient.AddCommentPath | frontend/js/api.js:71-77 | '/photos/<id>/comments' |
| ApiClient.DeleteCommentPath | frontend/js/api.js:79-84 | '/comments/<id>?userId=<userId>' |
| ApiClient.UpdateUserRolePath | frontend/js/api.js:121-127 | '/users/<id>/role' |
| ApiClient.DeleteFilePath | frontend/js/api.js:106-111 | '/storage/' followed by the name with its `$` patterns expanded, which is the name itself when it has no '$'; not encoded |
| ApiClient.DollarAmpersandName | frontend/js/api.js:107 | a name starting with `$&` is requested as the unfilled template followed by the rest |
| ApiClient.DoubleDollarName | frontend/js/api.js:107 | a name starting with `$$` is requested with a single `$`, naming another blob |
| ApiClient.GetUserPath | frontend/js/api.js:116-119 | always '/auth/user', whatever the id |
| ApiClient.GetUserPathCarriesNoId | frontend/js/config.js:12 | two users are looked up with the same path, and that path never contains the id |
| ApiClient.GetPhotosQuery | frontend/js/api.js:29-34 | page as given and limit 20; search present iff it is non-empty |
| ApiClient.GalleryQueryServed | frontend/js/api.js:29-34 | the backend reads the gallery's query back as meant, and serves any page from 1 on with status 200 |
| ApiClient.ApiRequest | frontend/js/api.js:3-25 | the body iff the status is 2xx; otherwise an exception whose message is the body's error, or 'Request failed' |
| ApiClient.BackendErrorsSurface | frontend/js/api.js:16-18 | every backend error with a message reaches the page as that message |
| ApiClient.ValidateFile | frontend/js/api.js:172-182 | passes iff the type is in the allowlist (which includes image/jpg) and the size is at most 10 MiB; the type is checked first, and each failure has its own message |
| ApiClient.ClientCheckMatchesServer | frontend/js/config.js:42-43 | the browser's file check passes exactly when the validated upload's checks do |
| ApiClient.AgeOf | frontend/js/api.js:152-163 | the buckets are exclusive ranges of elapsed milliseconds; each shown count is at least 1 and below the next unit |
| ApiClient.CountAgo | frontend/js/api.js:161-163 | the count, the unit with an 's' above one, then ' ago' |
| ApiClient.FormatDate | frontend/js/api.js:152-170 | the label of the age bucket, or the calendar date from a week on |
| ApiClient.PluralExactlyAboveOne | frontend/js/api.js:161-163 | the unit takes an 's' iff the count is above 1 |
| ApiClient.FormatDateLabels | frontend/js/api.js:152-170 | 'Just now' under a minute, then minutes, hours and days by floor division, and the calendar date from a week on |
| AuthSession.LinksFor | frontend/js/auth.js:112-123 | the panel is shown iff the role is creator or admin, each with only its own link; otherwise it is hidden and the links keep their display |
| AuthSession.SessionState.IsAuthenticated | frontend/js/auth.js:147 | `currentUser !== null`: true also for an undefined user |
| AuthSession.SessionState.HasRole | frontend/js/auth.js:148 | a held profile whose role is exactly the one asked |
| AuthSession.SessionState.RequireAuth | frontend/js/auth.js:149 | passes iff signed in |
| AuthSession.SessionState.RequireRole | frontend/js/auth.js:150 | signed in and holding that role |
| AuthSession.ShownLinksMatchRole | frontend/js/auth.js:112-123 | a shown panel has exactly one link, the role's own |
| AuthSession.CreatorLinkMatchesUploadRule | frontend/js/auth.js:113-118 | the creator link is shown exactly to the accounts the upload rule accepts |
| AuthSession.FailedSignInKeepsSession | frontend/js/auth.js:52-69 | a failed request, or a refused one whose token does not decode, changes nothing |
| AuthSession.OfflineSignIn | frontend/js/auth.js:53-64 | a refused sign-in with a readable token gives a saved consumer with a null id, signed in, with no role links |
| AuthSession.BackendSignInAdopted | frontend/js/auth.js:73-77 | an accepted sign-in holds, and saves, the backend's account with its id and role |
| AuthSession.OkReplyWithoutUser | frontend/js/auth.js:75 | an ok reply without a user leaves the page signed in (`!== null`) with no role at all |
| AuthSession.LogoutEndsSession | frontend/js/auth.js:128-144 | after logout, nobody is signed in, no role check passes, nothing is saved, and the panel is hidden |
| AuthSession.RestoreAfterSignIn | frontend/js/auth.js:31-35 | restoring the saved profile gives back the signed-in user |
| AuthSession.Session.constructor | frontend/js/auth.js:31-35 | the page starts with the saved profile, if any, and shows its links |
| AuthSession.Session.UpdateUIForLoggedInUser | frontend/js/auth.js:97-125 | the links follow the held profile's role, and nothing changes without one |
| AuthSession.Session.HandleGoogleSignIn | frontend/js/auth.js:39-94 | the new state is SignedIn of the old one |
| AuthSession.Session.Logout | frontend/js/auth.js:128-144 | the new state is LoggedOut of the old one |
| GalleryPage.SlotsFacts | frontend/js/photos.js:89-106 | the loop emits buttons and ellipses at increasing pages within range; a button exactly where ButtonAt holds, active exactly on the current page; an ellipsis only at page±3 and never on a button's page |
| GalleryPage.PaginationFrame | frontend/js/photos.js:76-118 | the bar is Previous, then the loop's items, then Next |
| GalleryPage.Pagination | frontend/js/photos.js:68-119 | nothing for at most one page, else Previous, the items of pages 1 to the total, then Next |
| GalleryPage.PaginationEnds | frontend/js/photos.js:71-116 | nothing for at most one page; Previous disabled iff page 1 and Next iff the last page |
| GalleryPage.PaginationButtons | frontend/js/photos.js:89-102 | page i has a button iff it is the first, the last or within two of the current one; buttons come in strictly increasing order and keep the search |
| GalleryPage.PaginationGaps | frontend/js/photos.js:103-105 | an ellipsis only at page-3 or page+3 where there is no button, so at most two |
| GalleryPage.ExactlyOneActive | frontend/js/photos.js:98 | on a page in range exactly one button is active, the current one |
| GalleryPage.OwnerButtonRefused | frontend/js/photos.js:231 | the photo's owner sees a delete button on others' comments that both backend delete rules refuse with 403 |
| GalleryPage.GrantedDeletionOffered | frontend/js/photos.js:231 | when the author's id is in the rows, every deletion the author-or-admin rule grants is offered |
| GalleryPage.AuthorUnseenWithoutId | frontend/js/photos.js:231 | when the rows leave the author id out, an author who is neither owner nor admin gets no button, though the backend would let them delete |
| GalleryPage.CanDelete | frontend/js/photos.js:231 | a held profile that is the comment's author, the photo's owner, or an admin |
| GalleryPage.CommentRequestFor | frontend/js/photos.js:267-280 | a request iff signed in with a held profile and the trimmed text is non-empty; it carries the trimmed text to the open photo's path |
| GalleryPage.SentCommentNotBlank | frontend/js/photos.js:272-277 | a sent comment passes the backend's blank check and is not changed by the trimming rule |
| GalleryPage.OfflineCommentRefused | frontend/js/photos.js:280 | an offline session sends a null userId, which the validated rule refuses with 400 |
| GalleryPage.Gallery.constructor | frontend/js/photos.js:3-6 | page 1, empty search, no photo open |
| GalleryPage.Gallery.LoadPhotos | frontend/js/photos.js:9-15 | records the page and the search as current, then asks for exactly them |
| GalleryPage.Gallery.SearchPhotos | frontend/js/photos.js:122-126 | page 1 with the trimmed input |
| GalleryPage.Gallery.DisplayPagination | frontend/js/photos.js:68-119 | the loop builds exactly Pagination(page, totalPages, currentSearch) |
| GalleryPage.Gallery.OpenPhotoModal | frontend/js/photos.js:145-154 | the photo id is recorded at once, and the owner only when the detail arrives |
| GalleryPage.Gallery.ClosePhotoModal | frontend/js/photos.js:190-195 | both the photo id and the owner become null |
| GalleryPage.Gallery.SubmitComment | frontend/js/photos.js:267-280 | the request CommentRequestFor gives |

## Left out

- The HTTP runtime, CORS headers, JSON (de)serialisation and the `headers`
  block of each response are not modelled. A body that fails to parse or a
  database driver exception (the generic 500 catch blocks) is left out.
  Only the 500 answers that the shown code itself reaches are modelled: the
  listing's rejected row window, the deletion's missing user row, and a
  storage name that fails to decode.
- SQL `LIKE` is modelled as plain substring containment. The `%`, `_` and
  `[` wildcards inside a search term, and the column collation (case
  folding), are not modelled.
- Route and query ids are natural numbers or absent. `parseInt` of a
  non-numeric string (NaN), and SQL Server's conversion of such strings,
  are left out.
- The unchecked like and comment handlers take a present numeric userId. A
  missing one would be inserted as NULL, which depends on a schema that is
  not part of this model.
- `IsPublished` is assumed to be 1 on insert: no handler sets it, and the
  schema default is not part of this model.
- Timestamps are natural numbers supplied by the caller, for the database
  clock and `Date.now()`. `Math.random()` is a natural-number parameter.
  The locale calendar date of `formatDate` is a parameter.
- Google token verification, `decodeURIComponent`, the token payload's
  base64 and JSON decoding, and the multipart parser are oracle parameters.
- The blob client's network, the URL-encoding of blob names, and
  percent-encoding of query strings (`URLSearchParams`) are not modelled.
- Photo files themselves are not modelled: a blob is only its size and its
  content type.
- The front end's DOM work (the HTML of cards and comments,
  notifications, loading spinners, `sharePhoto`) is left out. The pagination
  bar is modelled as the list of items it renders. The `'${currentSearch}'`
  interpolation inside the onclick attribute is not modelled as escaping.
- The network calls the front end awaits are not modelled as asynchronous:
  interleavings of concurrent requests are left out. The reload of the
  gallery after sign-in and the creator access button are not modelled.
- `toggleLike` and `deleteComment` in frontend/js/photos.js only chain
  requests whose paths and error rule are modelled in ApiClient. They have
  no state of their own.
- AuthSession.Session.constructor models restoring a parsed saved
  profile. A saved value that does not parse (such as the text written
  after an ok reply without a user) is left out.
- Concurrency between requests against the same tables, and transactions,
  are left out: each request runs alone.
- Integer widths are not modelled: SQL `INT` ids and counters are unbounded.
- JsText.AsciiUpper: `toUpperCase` is modelled for ASCII letters only. Other
  characters are kept as they are, though JavaScript maps some of them
  (such as 'ß' to "SS", which changes the length).
- PhotoItem.MethodOf: inherits the ASCII-only upper-casing of
  JsText.AsciiUpper, so its length clause does not hold of JavaScript for
  such characters. The dispatch on GET, PUT and DELETE is unaffected.
- StorageEndpoints.SafeExtension: strings are sequences of Unicode scalar
  values, not UTF-16 code units. `length` and `slice` differ for characters
  outside the Basic Multilingual Plane: JavaScript counts two units each
  and can cut one in half. That case is not modelled, and
  StorageEndpoints.GeneratedName then differs from the source too.
- Store.NewPhoto and Store.NewConsumer, and the comment insert: Views = 0
  and Likes = 0 are assumed, and CreatedAt and UpdatedAt are `now`. These
  are taken as the schema's column defaults: the INSERT statements set none
  of them, and the schema is not part of this model.
- Store.Tables.DeletePhoto and PhotoEndpoints.DeletionRemovesOnlyThePhoto:
  no foreign keys or cascades are modelled, so a deleted photo's comments
  and likes stay. A foreign key without a cascade would make the DELETE
  fail with 500; a cascading one would remove those rows.
