# Portfolio blog API — a Dafny model

This project models the core of a small REST backend for a personal
portfolio site, built on Express and Mongoose:

- a blog with comments;
- a list of projects;
- a contact form;
- user accounts authenticated by JSON Web Tokens.

The model covers:

- **The schemas.** These are the User, Message, BlogPost, Comment and Project
  models.
  - Each one has a `Violations` function: for each path that fails, the first
    of its validators that fails, with `required` checked first.
  - The e-mail regular expression shared by users and messages is written
    two ways: as a ghost grammar (`EmailPattern.Matches`) and as a compiled
    recognizer (`EmailPattern.IsEmail`). The two are proved equivalent.
  - The unique indexes on username and e-mail are invariants of the user
    store.
  - The pre-save hook, which hashes a modified password, is a method on a
    `UserDocument` class. So is `matchPassword`.
  - The pre-deleteOne hook on a blog post removes all comments that point
    at the post, before the post itself goes.
- **The middleware.**
  - `protect` becomes a pure decision, `AuthMiddleware.Authenticate`, plus
    a method that updates the request (`req.user`, `res.statusCode`,
    calls to `next`). The method is proved against that decision.
  - `admin` is a method on the same request object.
  - The error handler is a function: a status of 200 becomes 500, and the
    stack trace is hidden in production.
- **The controllers.** Every handler is modelled:
  - the blog, comment, user, project and contact handlers;
  - each handler that writes is a method on the `Collection` objects that
    stand for the MongoDB collections;
  - every branch, status code and message of the source is kept.
- **The routers.** The route tables become functions from verb and path to
  a guard chain and a handler. `Routing.RunChain` states what a chain of
  `protect`/`admin` guards lets through.
- **The whole application.** `App.Serve` takes one request from route
  matching to the response. It keeps a referential-integrity invariant over
  all five collections: posts belong to stored administrators, and so do
  projects as far as the model's updates go (see `ProjectController.Patched`
  under "## Left out");
  comments belong to stored posts and users; every stored user and message
  is valid.

Some behaviour of the source, as written, is made explicit by the model:

- A registration whose username is already taken gets past the handler's
  own checks. It fails at the unique index with status 500, because the
  handler never set a status.
- An invalid e-mail address or a password shorter than six characters also
  reaches the client as a 500 validation error.
- `protect` accepts any header that starts with the letters `Bearer`,
  `BearerXYZ tok` included. The token is the text after the first space.
  It ends at the next space if there is one.
- A token naming a user that no longer exists is reported with the generic
  "token verification failed" message. The "no such user" error is thrown
  inside the `try` block, so its own `catch` catches it.
- Blog-post update and delete are routed through `protect, admin`.
  - The handlers' check that the caller is the author or an admin therefore
    always passes for a request that reaches them
    (`BlogRoutes.AuthorBranchUnreachable`).
  - A non-admin author is stopped by `admin` with 403.
- Project update and delete have no ownership check at all. Any
  administrator may change any project.

All modules live in one file each and import each other directly. The
parameters of `Common.Env` model the external services:

- token signing and verification;
- password hashing;
- the `NODE_ENV` flag;
- the stack trace of an error.

Clock readings are passed in as `now`.

## Model

| member | source | states |
|---|---|---|
| EmailPattern.MatchesIff | models/userModel.js:39 | The compiled recognizer accepts a string exactly when the regular expression `^\w+([.-]?\w+)*@\w+([.-]?\w+)*(\.\w{2,3})+$` matches it. |
| EmailPattern.ExactlyOneAt | models/userModel.js:39 | An address the pattern accepts has exactly one `@`. |
| EmailPattern.Alphabet | models/userModel.js:39 | Every character of an accepted address other than `@` is a word character, `.` or `-`. |
| EmailPattern.WordCharsAround | models/userModel.js:39 | An accepted address starts and ends with a word character, and every other character sits between two word characters. |
| EmailPattern.TopLevelLabel | models/userModel.js:39 | An accepted address ends in a dot followed by two or three word characters. |
| EmailPattern.AcceptsShortAddress | models/userModel.js:39 | `a@b.com` is accepted. |
| EmailPattern.AcceptsSeparatedLocalPart | models/userModel.js:39 | `a.b-c@d.co` is accepted. |
| EmailPattern.RejectsMissingAt | models/userModel.js:39 | `ab.com` is rejected. |
| EmailPattern.RejectsShortTopLevel | models/userModel.js:39 | `a@b.c` is rejected: the last label is too short. |
| EmailPattern.RejectsLongTopLevel | models/userModel.js:39 | `a@b.abcd` is rejected: the last label is too long. |
| UserModel.Violations | models/userModel.js:19-70 | Each failure is present exactly when its rule is the first one broken on its path. The rules: username, e-mail, password and role required; a non-empty e-mail matches the pattern; a non-empty password has at least 6 characters; a non-empty role is one of `user`, `admin`. |
| UserModel.FirstFailurePerPath | models/userModel.js:19-70 | Validation reports at most one failure per path. |
| UserModel.ValidationIff | models/userModel.js:24-67 | A user passes validation exactly when the username is non-empty, the e-mail matches the pattern, the password has at least 6 characters and the role is `user` or `admin`. |
| UserModel.ShortPasswordRejected | models/userModel.js:49-54 | A password shorter than six characters is always rejected. |
| UserModel.DefaultRole | models/userModel.js:62-67 | The default role is a permitted role and is not `admin`. |
| UserModel.DuplicateKeyOf | models/userModel.js:24-42 | No unique index is violated exactly when no stored user shares the username or the e-mail. The username index is reported exactly when a stored user has that username. |
| UserModel.InsertKeepsValid | models/userModel.js:24-42 | Adding a user that breaks no unique index keeps usernames and e-mails unique and every stored user valid. |
| UserModel.Create | controllers/userController.js:34-38 | `User.create` validates the document with the plaintext password and the default role. Next the pre-save hook runs. Then the insert may be refused by a unique index. Each path's result and store state are stated, and a valid user store stays valid. |
| UserModel.UserDocument.constructor | models/userModel.js:62-67 | A new document has the default role and counts its password as modified. |
| UserModel.UserDocument.Loaded | controllers/userController.js:74 | A document read back from the store holds exactly the stored user, password not modified. |
| UserModel.UserDocument.PreSave | models/userModel.js:77-87 | A modified password is replaced by its hash; an unmodified one is left alone. Nothing else changes. Afterwards the original password matches the stored hash. |
| UserModel.UserDocument.MatchPassword | models/userModel.js:94-97 | An entered password matches exactly when its hash equals the stored hash. |
| MessageModel.Violations | models/messageModel.js:22-48 | Name, e-mail and message are each required. A non-empty e-mail must match the pattern. At most one failure is reported per path. |
| MessageModel.ValidationIff | models/messageModel.js:22-48 | A message passes validation exactly when its name and text are non-empty and its e-mail matches the pattern. |
| MessageModel.SameEmailRule | models/messageModel.js:32-39 | A message and a user with the same e-mail get the same verdict on that e-mail. |
| MessageModel.TimestampIrrelevant | models/messageModel.js:49-52 | The creation time plays no part in validation. |
| MessageModel.Examples | models/messageModel.js:36 | A message from `a@b.com` is accepted; one from `ab.com` or `a@b.c` is rejected. |
| CommentModel.Violations | models/commentModel.js:22-25 | A comment fails validation exactly when its body is empty. |
| ProjectModel.Violations | models/projectModel.js:20-80 | A project fails validation exactly when its title or its description is empty. |
| BlogPostModel.Violations | models/blogPostModel.js:11-19 | A post fails validation exactly when its title or its content is empty. |
| BlogPostModel.AfterCascade | models/blogPostModel.js:37 | After a post's comments are deleted, exactly the comments of other posts remain, unchanged. |
| BlogPostModel.CascadeKeepsReferences | models/blogPostModel.js:33-39 | If every comment pointed at a stored post before the post and its comments are deleted, the same holds after. |
| BlogPostModel.DeleteOne | models/blogPostModel.js:33-39 | `post.deleteOne()` first removes every comment of the post, then the post itself. |
| ErrorMiddleware.FinalStatus | middleware/errorMiddleware.js:16 | The error status is never 200: a status left at 200 becomes 500, and any other status is kept. |
| ErrorMiddleware.FinalStatusIdempotent | middleware/errorMiddleware.js:16 | Passing a status through the mapping twice changes nothing more. |
| ErrorMiddleware.ErrorHandler | middleware/errorMiddleware.js:13-26 | The reply carries the mapped status and the error itself. The stack is null exactly in production and is the error's stack otherwise. |
| AuthMiddleware.Split | middleware/authMiddleware.js:24 | `split(' ')` gives at least one piece. No piece contains a space. Joining the pieces with spaces gives back the input. There is a single piece exactly when the input has no space. |
| AuthMiddleware.BearerToken | middleware/authMiddleware.js:24 | `split(' ')[1]` is undefined exactly when the header has no space. |
| AuthMiddleware.TokenAfterBearer | middleware/authMiddleware.js:24 | For a token without spaces, `split(' ')[1]` of `Bearer <token>` is that token. |
| AuthMiddleware.SplitAtFirst | middleware/authMiddleware.js:24 | The second piece of a split is the text between the first and second separator. |
| AuthMiddleware.Authenticate | middleware/authMiddleware.js:17-51 | The result is "no token" exactly when the header is missing or does not start with `Bearer`. It is "authenticated" exactly when the token verifies to the id of a stored user, and the account is then that user without the password. |
| AuthMiddleware.AuthFailure | middleware/authMiddleware.js:33-50 | A missing token is reported as "no token". Every other failure, an unknown user included, is reported as "token verification failed". The "no such user" message never reaches the client. |
| AuthMiddleware.BareBearerFails | middleware/authMiddleware.js:21-44 | A header with no space that starts with `Bearer` passes the prefix test, yet fails verification. |
| AuthMiddleware.EmptyTokenFails | middleware/authMiddleware.js:21-44 | A header that passes the `Bearer` prefix test and ends at its first space, such as `Bearer ` itself, carries the empty token and fails verification whatever the verifier says. |
| AuthMiddleware.BearerHeader | middleware/authMiddleware.js:21-39 | `Bearer <token>` for a space-free token authenticates exactly when the token verifies to a stored user. |
| AuthMiddleware.Protect | middleware/authMiddleware.js:17-51 | Calls `next` once exactly when the request authenticates, setting `req.user` to the account and leaving the status alone. Otherwise it sets status 401, does not call `next`, and throws the failure `AuthFailure` reports. `req.user` is left unset for a missing token or failed verification and cleared for an unknown user. |
| AuthMiddleware.AdminAfterProtect | middleware/authMiddleware.js:17-68 | After `protect` passes, `admin` passes exactly when the authenticated account has role `admin`. |
| AuthMiddleware.Admin | middleware/authMiddleware.js:60-68 | Calls `next` exactly when `req.user` is an administrator. Otherwise it sets status 403 and throws "no admin rights". `req.user` never changes. |
| BlogController.InsertByDate | controllers/blogController.js:17 | Inserting into a newest-first list keeps it newest first and adds exactly the new post. |
| BlogController.SortNewestFirst | controllers/blogController.js:17 | `sort({ createdAt: -1 })` returns a permutation of its input, newest first. |
| BlogController.GetBlogPosts | controllers/blogController.js:16-20 | Replies 200 with every stored post exactly once, newest first, and nothing else. |
| BlogController.GetBlogPostById | controllers/blogController.js:61-70 | Replies 404 exactly when the id is not stored, otherwise 200 with the stored post. |
| BlogController.CreateBlogPost | controllers/blogController.js:29-52 | A missing title or content gives 400 with the store unchanged. Otherwise 201 with a new id holding the title, the content, the caller as author and the current time. The new post is valid. |
| BlogController.ApplyEdit | controllers/blogController.js:98-99 | An edit replaces the title or content only when the body gives a non-empty value. Author and creation time are kept. |
| BlogController.ApplyEditIdempotent | controllers/blogController.js:98-99 | Applying the same edit twice is the same as applying it once. |
| BlogController.EmptyEditKeepsPost | controllers/blogController.js:98-99 | An edit with missing or empty fields leaves the post as it was. |
| BlogController.ApplyEditKeepsValid | controllers/blogController.js:98-101 | Editing a valid post always gives a valid post. |
| BlogController.UpdateBlogPost | controllers/blogController.js:79-103 | 404 for an unknown id and 403 for a caller who is neither author nor admin, store unchanged in both cases. Otherwise the post is replaced by its edit and returned with 200. |
| BlogController.DeleteBlogPost | controllers/blogController.js:112-133 | 404 for an unknown id and 403 for a caller who is neither author nor admin, stores unchanged in both cases. Otherwise the post and all its comments are gone and the reply is 200 with the success message. |
| CommentController.GetCommentsForPost | controllers/commentController.js:17-30 | 404 when the post is not stored. Otherwise 200 with exactly the comments of that post, in increasing id order (the order the model fixes for an unsorted `find`). |
| CommentController.CreateComment | controllers/commentController.js:39-66 | An empty body gives 400 (checked before the post). An unknown post gives 404. Otherwise 201 with a new comment holding the text, the post and the caller; no other comment changes. |
| UserController.FindByEmail | controllers/userController.js:27 | Finds nothing exactly when no stored user has the e-mail. Otherwise finds a stored user with that e-mail. |
| UserController.RegisterUser | controllers/userController.js:17-55 | A missing field gives 400. An e-mail already registered gives 400. A validation failure or a taken username is thrown with status 200, which the error handler turns into 500. Otherwise 201 with a token for the new id and its profile. A valid user store stays valid. |
| UserController.LoginUser | controllers/userController.js:64-93 | A missing field gives 400. Success exactly when a stored user has that e-mail and the password's hash equals the stored one: 200 with a token and the profile. Otherwise 401 "invalid e-mail or password". The store is not touched. |
| ProjectController.GetProjects | controllers/projectController.js:16-19 | Replies 200 with every stored project exactly once and nothing else, in increasing id order (the order the model fixes for an unsorted `find`). |
| ProjectController.GetProjectById | controllers/projectController.js:28-37 | Replies 404 exactly when the id is not stored, otherwise 200 with the stored project. |
| ProjectController.CreateProject | controllers/projectController.js:46-64 | A missing title or description gives 400 with the store unchanged. Otherwise 201 with a new id holding the body's fields and the caller as owner. |
| ProjectController.Patched | controllers/projectController.js:82 | `findByIdAndUpdate(id, body)` overwrites exactly the fields named in the body and keeps the owner. |
| ProjectController.UpdateViolations | controllers/projectController.js:82-85 | With `runValidators`, only the updated paths are validated: a title or description set to the empty string is rejected. |
| ProjectController.UpdateViolationsOfValid | controllers/projectController.js:82-85 | For a valid project, validating only the updated paths finds exactly the violations of the updated project. |
| ProjectController.UpdateProject | controllers/projectController.js:73-88 | 404 for an unknown id. A validation failure is thrown with status 200, so the client sees 500, and the store is unchanged. Otherwise the project is replaced by its patch and returned with 200. |
| ProjectController.DeleteProject | controllers/projectController.js:97-107 | 404 for an unknown id with the store unchanged. Otherwise the project is removed and the reply is 200 with the success message. |
| ContactController.SaveContactMessage | controllers/contactController.js:16-42 | A missing name, e-mail or message gives 400. An e-mail that does not match the pattern is thrown as a validation error with status 200. Otherwise the message is stored under a new id with the current time, and the reply is 201 with success true. |
| Routing.RunChain | routes/blogRoutes.js:29-39 | A guard chain stops only with 401 or 403. A 401 carries the authentication failure; a 403 carries "no admin rights". Passing `protect` sets the user to the authenticated account. A chain ending in `admin` passes only with an administrator. |
| Routing.ProtectThenAdmin | routes/blogRoutes.js:31 | `protect, admin` passes exactly for an authenticated administrator. Otherwise it stops with 401 and the authentication failure, or 403 for a non-admin. |
| Routing.ProtectOnly | routes/commentRoutes.js:20 | `protect` alone passes exactly for an authenticated user, whatever the role. |
| Routing.RunGuards | routes/projectRoutes.js:20-30 | Running the guards against the request does what `RunChain` decides, with the status and `req.user` it states. |
| CommentRoutes.CommentRoute | routes/commentRoutes.js:18-20 | GET lists a post's comments with no guard. POST adds one behind `protect`. Other verbs have no route. |
| CommentRoutes.CommentRoutesShape | routes/commentRoutes.js:11-20 | Every comment route acts on the post id from the parent path. |
| BlogRoutes.BlogRoute | routes/blogRoutes.js:20-39 | Comment paths go to the comment router. Every other blog route is unguarded for GET and behind `protect, admin` for every other verb. |
| BlogRoutes.BlogGuards | routes/blogRoutes.js:29-39 | Every blog route is guarded by nothing, by `protect` alone, or by `protect, admin`. |
| BlogRoutes.AuthorBranchUnreachable | routes/blogRoutes.js:38-39 | Any request whose guards let it reach blog update or delete comes from an administrator, for whom the ownership check always holds. A non-admin author is stopped with 403. |
| BlogRoutes.CreateRunsForAdmin | routes/blogRoutes.js:31 | Creating a post passes its guards exactly for an authenticated administrator. |
| ProjectRoutes.ProjectRoute | routes/projectRoutes.js:20-30 | GET routes are unguarded and every write is behind `protect, admin`. No route exists for PUT or DELETE on the collection or POST on an item. |
| ProjectRoutes.AdminsOnlyForProjectWrites | routes/projectRoutes.js:27-30 | Project update and delete pass their guards exactly for an authenticated administrator. |
| App.RouteOf | server.js:48-51 | Maps each mounted path and verb to the route its router declares. |
| App.RouteGuards | server.js:48-51 | Admin-only handlers are always behind `protect, admin`, and handlers that need a user behind `protect`. |
| App.Database.constructor | server.js:23 | A fresh database has five empty collections and satisfies the store invariant. |
| App.PostDeleted | models/blogPostModel.js:33-39 | Deleting a post together with its comments keeps every reference between collections intact. |
| App.Respond | middleware/errorMiddleware.js:13-26 | A sent reply goes out as it is. A thrown error goes through the error handler and never carries status 200. |
| App.Dispatch | server.js:48-57 | Running any handler for a caller its guards let through keeps the store invariant. Every stored comment stays stored and unchanged, unless the action deletes the post it belongs to. |
| App.Serve | server.js:48-57 | Serving one request keeps the store invariant. An unrouted request gets Express's 404 and changes nothing. A request for an admin-only handler without an authenticated administrator ends in 401 or 403, as does a comment from an unauthenticated client, and changes nothing. Every stored comment survives a request unchanged, except the comments of a post the request deletes. |

## Left out

- Token signing and verification (`jsonwebtoken`, the secret and the 30-day expiry in utils/generateToken.js) are the parameters `sign` and `verify` of `Env`. Expiry is part of what `verify` decides.
- Password hashing: bcrypt's salt and its `compare` are a single hash function `hash`. A match is hash equality. bcrypt's 72-byte truncation is not modelled.
- `populate('author', 'username')` and `populate('user', 'username')` are not modelled. Replies carry the stored ids.
- `createdAt` is the `now` parameter. `updatedAt` is not modelled.
- The order of an unsorted `find` (`getProjects`, `getCommentsForPost`, the model's `All`) is unspecified in MongoDB. The model lists documents in increasing id order, which is insertion order, as one possible order.
- The order of posts created at the same instant is not stated. `SortNewestFirst` fixes one order; MongoDB's order of ties is unspecified.
- Ids are natural numbers, so a malformed id (Mongoose's `CastError`) does not arise.
- Request bodies are maps from strings to strings. Non-string JSON values, and a project update that sets `_id` or unknown keys, are not modelled.
- ProjectController.Patched: always keeps the project's owner `user`. In the source, `findByIdAndUpdate(req.params.id, req.body)` also writes a `user` key from the body, cast to an ObjectId and never checked against the stored users. So an admin's update can give a project an owner who is not a stored administrator, or no stored user at all. The half of `App.Consistent` that says projects belong to stored administrators (`App.ProjectOk`) therefore holds for the model only, not for the source.
- UserModel.DuplicateKeyOf: when a new user clashes on both unique indexes, the model reports the `username` index. MongoDB does not say which E11000 error wins, so this order is a modelling choice.
- Mongoose error messages are abstracted as `Failure` values: the first failing validator of each failing path, or the duplicate key.
- `minlength` counts characters of the Dafny string, not UTF-16 code units.
- Database failures, the network, concurrency between requests, and logging are not modelled.
- The `else` branches after `if (user)` in registration and `if (newMessage)` in the contact handler are not modelled. `create` either returns a document or throws, so those branches are dead.
- The query-level `deleteOne` middleware path is not modelled, because only the document-level hook is registered.
- The request-level plumbing of server.js is not modelled: CORS, helmet, body parsing, `dotenv`, the database connection and `listen`.
- UserController.LoginUser: requires the store invariant that e-mails are unique; `findOne` is then unambiguous.
- BlogController.CreateBlogPost, BlogController.UpdateBlogPost, BlogController.DeleteBlogPost, CommentController.CreateComment, ProjectController.CreateProject: take the caller as a present account, because every route to them runs `protect` first.
- App.Dispatch: states only that the store invariant is kept and that comments survive other than those of a deleted post; what each handler replies is stated by the handler's own contract.
