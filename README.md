# E-learning backend: authentication core, course, forum and progress documents

This project models the core of an Express and Mongoose e-learning backend in Dafny.

**Authentication**
- The User and Admin documents: their schema rules, the pre-save password hashing, and the token ledgers of the User document (refresh tokens, password-reset and e-mail-verification tokens).
- The handlers of the authentication controller: register, registerTeacher, login, refresh, logout, forgotPassword and resetPassword.
- The bearer-token middleware.
- The request-validation chains that sit in front of the handlers.

**Teaching documents**
- The Course document: the validators of its nested schemas, enrolment, reviews and the average rating.
- The course Forum: posts, comments and likes.
- A student's Progress through a course and its completion percentage.

**How the model is built**
- Documents that a handler changes field by field are classes:
  - `UserModel.User` and `AdminModel.Admin`;
  - `CourseModel.Course`, `ForumModel.Post`, `ForumModel.Comment` and `ForumModel.Forum`;
  - `ProgressModel.Progress`.
- Their stored views are datatypes (`UserDoc`, `AdminDoc`, `CourseDoc`).
- The two principal collections live in `Store.Db`.
- Each handler is two things:
  - a method on `Db`;
  - a pure step function over the stored user documents (`RegisterStep`, `LoginStep`, `RefreshStep`, …).
- The method's postcondition equates its response and its new collection with that step function. The lemmas in `Sessions` then state what whole sessions of requests do.

**Libraries and the environment**
- The libraries the core calls are fields of the datatype `Primitives.Primitives`:
  - bcrypt, jsonwebtoken, sha256;
  - validator's `isEmail`, `isJWT` and `normalizeEmail`.
- The facts the session lemmas rely on are collected in `JwtSound`: a token verifies, with its claims, until its expiry. As in jsonwebtoken, issue time and lifetime count in whole seconds (`TokenLive`).
- Clocks, random bytes, salts and the mailer's failure are parameters.

## Model

| member | source | states |
|---|---|---|
| Prelude.NormalizeEmail | backend/src/models/User.js:31-37 | The stored form of an e-mail is never longer than the given one and holds no upper-case ASCII letter (fields declared `trim`, `lowercase`). |
| Prelude.Trim | backend/models/Course.js:128-137 | A trimmed value starts and ends with no white space. It is empty exactly when the input is all white space. Input without white space is unchanged. |
| Primitives.HexOfBytes | backend/src/models/User.js:114 | The hex form of n random bytes has 2n characters, all lower-case hexadecimal digits. |
| Primitives.HexOfBytesInjective | backend/src/models/User.js:114 | Different byte strings give different hex strings. |
| Primitives.TokenDiesUpToASecondEarly | backend/src/controllers/auth.controller.js:13-27 | Because expiry is counted in whole seconds, a 15-minute token signed at 1.5 s is already dead at 901 s, less than 15 minutes after signing. |
| Tokens.GeneratedTokensVerify | backend/src/controllers/auth.controller.js:13-27 | While it is live, the access token verifies with the access secret and carries the subject's id and role. The refresh token verifies with the refresh secret and carries only the id. With distinct secrets, neither verifies under the other's secret. |
| UserModel.ParseUserRole | backend/src/models/User.js:49-55 | No role given yields `student`. A given role is accepted exactly when it is `student` or `teacher`, and it round-trips through its name. |
| UserModel.NewProfile | backend/src/models/User.js:7-27 | The picture defaults to `default-profile.png`. Both names and a given bio are stored trimmed, so names are never longer and are empty exactly when all blank. A bio is present exactly when one was given. |
| UserModel.ProfileErrors | backend/src/models/User.js:7-27 | A profile is valid exactly when both names are present and any bio is at most 500 characters. |
| UserModel.Unexpired | backend/src/models/User.js:136-139 | The purge keeps exactly the entries whose expiry lies after `now`. |
| UserModel.WithoutToken | backend/src/models/User.js:150-153 | The filter keeps exactly the entries for other tokens. |
| UserModel.LedgerAfterAdd | backend/src/models/User.js:133-147 | After addRefreshToken, the ledger holds every unexpired entry, then the new entry with expiry `now + ttl` at the end, and nothing else. |
| UserModel.UnexpiredKeepsOrder | backend/src/models/User.js:136-139 | The purge distributes over concatenation, so it keeps the ledger's order. |
| UserModel.LedgerAfterAddMultiplicity | backend/src/models/User.js:133-147 | Each entry's multiplicity after an add is its multiplicity among the unexpired entries, plus one for the new entry. |
| UserModel.LedgerHasNoCap | backend/src/models/User.js:133-147 | There is no size cap and no eviction. When nothing has expired, an add appends and the ledger grows by one. |
| UserModel.WithoutTokenKeepsOrder | backend/src/models/User.js:150-155 | Removing a token keeps the remaining entries in their order. |
| UserModel.WithoutAbsentToken | backend/src/models/User.js:150-155 | Removing a token nobody holds leaves the ledger unchanged. |
| UserModel.WithoutTokenIdempotent | backend/src/models/User.js:150-155 | After removal no entry carries the token, and removing it again changes nothing. |
| UserModel.UserSchemaErrors | backend/src/models/User.js:30-75 | A user document is valid exactly when its e-mail and password are present and its balance is not negative. |
| UserModel.AfterSave | backend/src/models/User.js:81-91 | A save changes at most the password, and only when the password was modified and validation passed. |
| UserModel.NewUserDoc | backend/src/models/User.js:30-75 | A new document stores the normalised e-mail, the given role and profile, a zero balance, an empty ledger and no tokens. It is not yet verified. |
| UserModel.User.constructor | backend/src/models/User.js:30-75 | The new object's document is `NewUserDoc`, and its password is marked modified. |
| UserModel.User.Save | backend/src/models/User.js:81-91 | Validation runs before the pre-save hook. A save fails exactly when the schema rejects the document, and then it returns those messages and changes nothing. On success the password is hashed if it was modified, and the document is valid. |
| UserModel.User.SetPassword | backend/src/controllers/auth.controller.js:204 | Assigning the password changes only the password and marks it modified. |
| UserModel.User.UpdateBalance | backend/src/models/User.js:103-110 | A negative resulting balance is refused with "Insufficient balance" and changes nothing. Otherwise the new balance is stored and the document saved. |
| UserModel.User.CreatePasswordResetToken | backend/src/models/User.js:113-124 | Returns the hex of the random bytes. Only its sha256 digest is stored, with an expiry one hour ahead. Nothing else changes. |
| UserModel.User.ClearPasswordResetToken | backend/src/models/User.js:127-130 | Both reset fields are unset, and nothing else changes. |
| UserModel.User.IssueResetToken | backend/src/controllers/auth.controller.js:174-175 | forgotPassword's create-then-save keeps a valid user valid. It stores the digest of the returned token and its expiry. |
| UserModel.User.ResetTo | backend/src/controllers/auth.controller.js:204-206 | resetPassword's assign-clear-save stores the digest of the new password and unsets both reset fields. The user stays valid. |
| UserModel.User.CreateEmailVerificationToken | backend/src/models/User.js:158-169 | Like the reset token, but with a 24-hour expiry and the verification fields. |
| UserModel.User.VerifyEmail | backend/src/models/User.js:172-177 | Marks the address verified, clears the token and its expiry, then saves. It fails exactly when the schema rejects the document. |
| UserModel.User.AddRefreshToken | backend/src/models/User.js:133-147 | The ledger becomes `LedgerAfterAdd` of the old ledger, then the document is saved. |
| UserModel.User.RemoveRefreshToken | backend/src/models/User.js:150-155 | The ledger becomes `WithoutToken` of the old ledger, then the document is saved. |
| AdminModel.ParseAdminRole | backend/src/models/Admin.js:20-25 | No role given yields `superadmin`. A given role is accepted exactly when it is one of the three enum values, and it round-trips through its name. |
| AdminModel.EmailShapeMatchesPattern | backend/src/models/Admin.js:18 | The linear scan accepts exactly the strings the schema's e-mail regular expression matches, in both directions. |
| AdminModel.AdminSchemaErrors | backend/src/models/Admin.js:5-31 | An admin document is valid exactly when the password has at least 6 characters and the e-mail is present and matches the pattern. There is at most one message per path. |
| AdminModel.AfterAdminSave | backend/src/models/Admin.js:37-47 | A save changes at most the password, and only when it was modified and validation passed. |
| AdminModel.Admin.constructor | backend/src/models/Admin.js:5-31 | The new admin stores the normalised e-mail, the role and the plain password, marked modified. |
| AdminModel.Admin.Save | backend/src/models/Admin.js:37-47 | A save fails exactly when the schema rejects the document, and then it changes nothing. Otherwise the modified password is hashed and the admin is valid. |
| AdminModel.DigestPassesLengthRule | backend/src/models/Admin.js:6-11 | A stored 60-character digest always passes the password length rule again. |
| Store.FindUserByEmail | backend/src/controllers/auth.controller.js:137 | findOne by e-mail returns the first document holding the normalised address, and none exactly when no document holds it. |
| Store.FindAdminByEmail | backend/src/controllers/auth.controller.js:110 | findOne by e-mail over admins: a match holds the normalised address, and there is none exactly when no admin has it. |
| Store.FindUserById | backend/src/middleware/auth.middleware.js:23 | findById: a match carries the id. There is none exactly when the id is absent or unknown. |
| Store.FindAdminById | backend/src/middleware/auth.middleware.js:16 | findById over admins: a match carries the id. There is none exactly when the id is absent or unknown. |
| Store.FindUserByRefreshToken | backend/src/controllers/auth.controller.js:281-283 | Logout's query returns the first holder of the token, and none exactly when nobody holds it. |
| Store.FindUserForRefresh | backend/src/controllers/auth.controller.js:238-242 | Refresh's query: a match has the token's id, some entry with the token and some unexpired entry. There is none exactly when no document matches. |
| Store.FindUserForReset | backend/src/controllers/auth.controller.js:188-196 | Reset's query: a match stores the digest with an expiry still ahead. There is none exactly when no document does. |
| Store.AppendUserValid | backend/src/models/User.js:31-37 | Appending a valid user with a fresh id and an unused e-mail keeps the collection's uniqueness invariants. |
| Store.Db.NewId | backend/src/models/User.js:30 | A new id differs from every stored id. |
| Store.Db.CreateUser | backend/src/controllers/auth.controller.js:42-48 | `new User(...)` then save: the collection grows by the hashed new document exactly when the schema accepts it. Otherwise nothing is written and the schema messages are returned. |
| Store.Db.AddRefreshTokenAt | backend/src/controllers/auth.controller.js:253 | Only the document at `k` changes, and its ledger becomes `LedgerAfterAdd`. |
| Store.Db.RemoveRefreshTokenAt | backend/src/controllers/auth.controller.js:286 | Only the document at `k` changes, and its ledger loses every entry of the token. |
| Store.Db.IssueResetTokenAt | backend/src/controllers/auth.controller.js:174-175 | Only the document at `k` changes: it stores the digest of the returned token and an expiry an hour ahead. |
| Store.Db.ResetPasswordAt | backend/src/controllers/auth.controller.js:204-206 | Only the document at `k` changes: it gets the new password's digest, and both reset fields are unset. |
| Store.Db.Insert | backend/src/models/User.js:31-37 | The unique e-mail index: the insert succeeds exactly when the address is not yet stored, and a refused insert writes nothing. |
| Store.Db.InsertUser | backend/src/models/User.js:81-91 | Saving a new user succeeds exactly when the schema accepts it and the address is free. Schema messages take precedence over the index error. |
| AuthController.Issue | backend/src/controllers/auth.controller.js:13-27 | Issues the token pair for the user at `k`, and records the refresh token with a 7-day expiry. No other user object is touched. Its response and collection are `IssueStep`. |
| AuthController.Register | backend/src/controllers/auth.controller.js:31-67 | Its response and new collection are `RegisterStep` of the old collection. Users already stored are not touched. See `Sessions.RegisterOutcomes`. |
| AuthController.RegisterTeacher | backend/src/controllers/auth.controller.js:70-102 | Its response and new collection are `RegisterTeacherStep`. See `Sessions.RegisterTeacherOutcomes`. |
| AuthController.Login | backend/src/controllers/auth.controller.js:105-164 | Its response and new collection are `LoginStep`: admins are consulted first, then users, and an admin's tokens are signed as written, without an id. See the login lemmas. |
| AuthController.Refresh | backend/src/controllers/auth.controller.js:226-269 | Its response and new collection are `RefreshStep`. See `Sessions.RefreshErrors` and `Sessions.RefreshRotates`. |
| AuthController.Logout | backend/src/controllers/auth.controller.js:272-293 | Its response and new collection are `LogoutStep`. See `Sessions.LogoutIdempotent`. |
| AuthController.ForgotPassword | backend/src/controllers/auth.controller.js:167-183 | Its response and new collection are `ForgotPasswordStep`, and the mail it sends is `ForgotPasswordMail`. |
| AuthController.ResetPassword | backend/src/controllers/auth.controller.js:186-212 | Its response and new collection are `ResetPasswordStep`. |
| AuthMiddleware.BearerToken | backend/src/middleware/auth.middleware.js:7 | The token taken from the header contains no space. A header without a space yields no token. |
| AuthMiddleware.BearerTokenOfHeader | backend/src/middleware/auth.middleware.js:7 | `Bearer <t>` yields `t` back for any space-free `t`. |
| AuthMiddleware.RoleClaimsPartition | backend/src/middleware/auth.middleware.js:14-30 | The admin and user role lists are disjoint, and each is exactly the role enum of its schema. |
| AuthMiddleware.Decide | backend/src/middleware/auth.middleware.js:5-35 | No token gives "Authentication required". A request let through as admin or user carries the verified claims of a role in that list and an id found in that collection. With a token present, the rejection says "Invalid token" exactly when verification failed. Conversely, verified claims with a listed role and the id of an existing principal of that kind are let through as that kind. |
| AuthMiddleware.DecideRejections | backend/src/middleware/auth.middleware.js:14-30 | A verified token with a role in neither list gets "Invalid user role". A role whose id is in no document of its collection gets that collection's message. |
| AuthMiddleware.Authenticate | backend/src/middleware/auth.middleware.js:5-35 | On rejection it answers 401 with the message and sets nothing. Otherwise it sets `req.admin` or `req.user` to the decoded claims, and only that. |
| Validation.EscapeChar | backend/src/middleware/validation.middleware.js:15 | A character is kept exactly when `escape()` does not replace it. An entity never contains markup. |
| Validation.Escape | backend/src/middleware/validation.middleware.js:15 | Escaping never shortens the text and is empty only for empty input. It leaves plain text unchanged and removes all markup characters. |
| Validation.EmailChain | backend/src/middleware/validation.middleware.js:8-15 | The e-mail chain passes exactly when the trimmed value is present and is an e-mail. A blank value reports "Email is required". |
| Validation.PasswordChainAsWritten | backend/src/middleware/validation.middleware.js:18-33 | As written, the length rule tests the escaped password. |
| Validation.PasswordChain | backend/src/middleware/validation.middleware.js:18-33 | Corrected: a registration password passes exactly when the trimmed password has at least 6 characters. A passing value is non-empty. |
| Validation.ShortPasswordPassesAsWritten | backend/src/middleware/validation.middleware.js:28-31 | "<<" has 2 characters but passes the registration rule as written; the corrected rule refuses it. |
| Validation.PasswordRules | backend/src/middleware/validation.middleware.js:18-33 | Corrected rule: every accepted registration password has at least 6 characters. A login password is accepted exactly when not blank. Registration acceptance implies login acceptance. |
| Validation.ResetTokenChain | backend/src/middleware/validation.middleware.js:36-42 | The token route accepts exactly 1 to 100 hexadecimal characters after trimming, and passes them on unchanged. |
| Validation.MailedResetTokenAccepted | backend/src/middleware/validation.middleware.js:36-42 | The token forgotPassword mails (64 hex characters) passes the reset route's chain unchanged. |
| Validation.ClassifyRefreshCookie | backend/src/middleware/validation.middleware.js:52-71 | The custom check rejects exactly the tokens that jwt.verify rejects. An admin verdict carries an admin role claim, and the claims are the verified ones. |
| Validation.RefreshCookieErrors | backend/src/middleware/validation.middleware.js:45-73 | The cookie chain passes exactly when the trimmed cookie is non-blank, has the JWT shape and the custom check accepts it. Any failure inside the custom check is reported as "Invalid refresh token". |
| Validation.CheckRefreshCookie | backend/src/middleware/validation.middleware.js:45-73 | Its errors are `RefreshCookieErrors`. It marks the request as the custom check classified the token. |
| Validation.IssuedRefreshCookieIsUser | backend/src/middleware/validation.middleware.js:59-66 | A live refresh token from generateTokens has no role, so the custom check classifies it as a user token with its id. |
| Validation.HandleValidation | backend/src/middleware/validation.middleware.js:77-89 | The handler is reached exactly when there are no errors. Otherwise the answer is 400, listing every error in order. |
| Validation.RoutesAdmitOnlyValidInput | backend/src/middleware/validation.middleware.js:92-119 | As written, login admits exactly a valid e-mail and a non-blank password, and registration exactly a valid e-mail and a password whose escaped form has at least 6 characters. A reset reaches the handler only with such a password. |
| Validation.CorrectedRoutesAdmitSixTyped | backend/src/middleware/validation.middleware.js:92-119 | With the corrected rule, registration admits exactly a valid e-mail and a password of at least 6 trimmed characters, and so does reset for the password. Everything the corrected routes admit, the routes as written admit too. |
| Sessions.BearerAccessVerifies | backend/src/middleware/auth.middleware.js:7-12 | A live access token sent as `Bearer <token>` reaches the role check with exactly the signed claims. |
| Sessions.IssuedAccessAuthenticates | backend/src/middleware/auth.middleware.js:21-27 | The access token issued by register, login or refresh lets a request through as that user, with its id and role. |
| Sessions.RegisterOutcomes | backend/src/controllers/auth.controller.js:31-67 | A taken address gets 400 and nothing is written. Otherwise a valid student is appended and every stored document is kept. Its ledger holds exactly the answer's refresh token, and its password is the digest. |
| Sessions.RegisterTeacherOutcomes | backend/src/controllers/auth.controller.js:70-102 | A taken address gets 400 and nothing is written. A created teacher is appended with the given profile and an empty ledger, and no tokens are issued. |
| Sessions.LoginAdminShadowsUsers | backend/src/controllers/auth.controller.js:110-134 | When an admin has the address, the answer is 200 or 401, writes nothing and does not depend on the User collection. |
| Sessions.LoginUserOutcomes | backend/src/controllers/auth.controller.js:137-160 | An unknown address and a wrong password get the same 401, and nothing is written. On success only the matching user's ledger changes, by `LedgerAfterAdd` with the answer's token. |
| Sessions.UserLoginTokenAuthenticates | backend/src/controllers/auth.controller.js:137-160 | A user's login access token authenticates that user with the id and role of the answer. |
| Sessions.AdminTokenRejectedAsWritten | backend/src/controllers/auth.controller.js:117-121 | As written, the admin's access token lacks an id, so the middleware refuses it with "Invalid admin account". |
| Sessions.AdminLoginRejectedAsWritten | backend/src/controllers/auth.controller.js:110-134 | As written, an admin's successful login answers 200, but its access token is refused on every request with "Invalid admin account". |
| Sessions.LoginCorrectionOnlyAdminTokens | backend/src/controllers/auth.controller.js:105-164 | The corrected login differs from login as written only in an admin's tokens: same status, same reported principal, same User collection, and the same answer when no admin has the address. |
| Sessions.AdminLoginTokenAuthenticates | backend/src/controllers/auth.controller.js:110-134 | With the corrected login (`LoginStepCorrected`, the id signed in), an admin's login access token authenticates that admin, with the id and role of the answer. |
| Sessions.RefreshErrors | backend/src/controllers/auth.controller.js:226-269 | No token gets 400. A JsonWebTokenError gets 401 and another error gets 500 with its message. None of these writes. |
| Sessions.RefreshRotates | backend/src/controllers/auth.controller.js:238-253 | A successful refresh changes only the holder. Its ledger loses every entry of the old token and gains the new one. |
| Sessions.SameSecondRefreshKeepsToken | backend/src/controllers/auth.controller.js:226-269 | A refresh in the same second as the token's issue re-issues that very token, and somebody still holds it afterwards. |
| Sessions.RefreshReplayRejected | backend/src/controllers/auth.controller.js:226-269 | After a rotation, replaying the old token (held by no one else) is refused at any later time, and nothing is written. |
| Sessions.LogoutIdempotent | backend/src/controllers/auth.controller.js:272-293 | With a token, logout answers 200 whether or not anybody holds it. With at most one holder, no user holds the token afterwards, and a second logout changes nothing. |
| Sessions.ForgotPasswordOutcomes | backend/src/controllers/auth.controller.js:167-183 | An unknown address gets 404 with no write and no mail. A known one stores the digest of the mailed token and an expiry an hour ahead, even when the mail fails (500). |
| Sessions.ResetNotReusable | backend/src/controllers/auth.controller.js:186-212 | After a successful reset, the same token is refused with 400 at any later time, and nothing is written. |
| Sessions.ResetFindsHolder | backend/src/controllers/auth.controller.js:186-212 | A live token whose digest only one user stores resets exactly that user. |
| Sessions.ForgotTouchesOnlyHolder | backend/src/controllers/auth.controller.js:167-181 | forgotPassword writes only the reset fields of the user with the address, and that address still finds the same user afterwards. |
| Sessions.ForgotAgainSupersedes | backend/src/controllers/auth.controller.js:167-212 | After a second forgotPassword request, the token mailed first is refused by resetPassword and nothing is written. |
| Sessions.ForgotThenReset | backend/src/controllers/auth.controller.js:167-212 | Round trip: within the hour, the mailed token passes validation and resets the user it was mailed to, and both reset fields end up cleared. |
| CourseModel.AllErrors | backend/models/Course.js:90-103 | A list of sub-documents has no messages exactly when none of its elements does. |
| CourseModel.QuestionErrors | backend/models/Course.js:5-30 | A question is valid exactly when the text is present, there are two or more options, the answer index is given and lies within the options, and there is an explanation. |
| CourseModel.QuizErrors | backend/models/Course.js:33-43 | A quiz is valid exactly when it has a title and at least one question. |
| CourseModel.VideoErrors | backend/models/Course.js:58-67 | A video is valid exactly when it has both a URL and a description. |
| CourseModel.DocumentErrors | backend/models/Course.js:46-55 | A document is valid exactly when it has both a URL and a description. |
| CourseModel.ContentErrorsAsWritten | backend/models/Course.js:70-82 | As written, content is valid exactly when its present parts are. |
| CourseModel.ContentErrors | backend/models/Course.js:70-82 | Corrected: content is valid exactly when a video or a document is present and both parts are valid. It refuses everything the as-written version refuses. |
| CourseModel.EmptyContentAcceptedAsWritten | backend/models/Course.js:70-82 | A lesson with empty content and a valid quiz passes as written, but fails the corrected rule with its message. |
| CourseModel.LessonErrorsAsWritten | backend/models/Course.js:90-103 | A lesson is valid as written exactly when its content is present and valid as written (quiz included). |
| CourseModel.LessonErrors | backend/models/Course.js:90-103 | A lesson is valid exactly when its content is present and passes the corrected rule (quiz included). |
| CourseModel.ChapterErrors | backend/models/Course.js:85-104 | As written, a chapter is valid exactly when it has a title, at least one lesson, and all its lessons are valid as written. |
| CourseModel.ChapterErrorsCorrected | backend/models/Course.js:85-104 | With the content rule, a chapter is valid exactly when it has a title, at least one lesson, and all its lessons pass the rule. Every chapter valid this way is valid as written. |
| CourseModel.EmptyContentChapterAcceptedAsWritten | backend/models/Course.js:70-104 | A chapter whose lesson has empty content is valid as written, but not with the content rule. |
| CourseModel.ReviewErrors | backend/models/Course.js:107-124 | A review is valid exactly when its rating is given and lies in 1..5. |
| CourseModel.CourseFieldErrors | backend/models/Course.js:127-168 | The course's own fields are valid exactly when title, description, a non-negative price, a category, a teacher and a chapter are all present. |
| CourseModel.CourseErrors | backend/models/Course.js:127-168 | A course is valid exactly when its fields, every chapter (as written) and every review are. |
| CourseModel.AverageRating | backend/models/Course.js:179-183 | A course without reviews averages 0. |
| CourseModel.RatingSumBounds | backend/models/Course.js:179-183 | Over n valid reviews, the rating sum lies between n and 5n. |
| CourseModel.AverageRatingBounds | backend/models/Course.js:179-183 | With at least one valid review, the average lies in 1..5. |
| CourseModel.StoredComment | backend/models/Course.js:208-210 | A comment is stored exactly when it is truthy, and then unchanged. |
| CourseModel.Course.constructor | backend/models/Course.js:127-168 | A new course has its title and description trimmed, and no students or reviews. |
| CourseModel.Course.SaveOutcome | backend/models/Course.js:127-168 | A save passes exactly when the course is valid. |
| CourseModel.Course.EnrollStudent | backend/models/Course.js:186-192 | An enrolled student is refused and nothing changes. Otherwise the student is appended and the course saved. The list stays duplicate-free, and the student is on it afterwards. |
| CourseModel.Course.AddReview | backend/models/Course.js:194-215 | A second review by the same user is refused and nothing changes. Otherwise one review is appended, with the comment kept only when truthy, and the course is saved. One review per user is preserved. |
| CourseModel.AppendedReviewKeepsOnePerUser | backend/models/Course.js:196-201 | A review by a user without one keeps one review per user, and that user then has one. |
| CourseModel.AppendedReviewValid | backend/models/Course.js:107-124 | Appending to valid reviews keeps them valid exactly when the new rating is in 1..5. |
| CourseModel.ReviewRatingDecidesSave | backend/models/Course.js:194-215 | On a valid course, the save after addReview succeeds exactly when the rating is in 1..5. |
| ForumModel.ToggledMultiset | backend/models/Forum.js:77-88 | Toggling removes one like of a present user, or adds one for an absent user. All other likes are unchanged. |
| ForumModel.ToggledFlipsMembership | backend/models/Forum.js:77-88 | On a duplicate-free list, toggling flips whether the user likes the post. |
| ForumModel.ToggledKeepsDistinct | backend/models/Forum.js:77-88 | Toggling never creates a duplicate like. |
| ForumModel.ToggledTwice | backend/models/Forum.js:77-88 | Like then unlike restores the list. Unlike then like restores it as a multiset, on a duplicate-free list. |
| ForumModel.PostErrors | backend/models/Forum.js:43-74 | A post is valid exactly when its trimmed title and content are present. |
| ForumModel.CommentErrors | backend/models/Forum.js:5-25 | A comment is valid exactly when its trimmed content is present. |
| ForumModel.Comment.constructor | backend/models/Forum.js:5-25 | A new comment has its content trimmed and no likes. |
| ForumModel.Comment.ToggleLike | backend/models/Forum.js:28-39 | The likes become `Toggled` of the old likes. On a duplicate-free list they stay duplicate-free, and the user's membership flips. |
| ForumModel.Post.constructor | backend/models/Forum.js:113-124 | The pushed post has its title and content trimmed and keeps an image URL only when truthy. It has no likes and no comments. |
| ForumModel.Post.ToggleLike | backend/models/Forum.js:77-88 | The likes become `Toggled` of the old likes. On a duplicate-free list they stay duplicate-free, and the user's membership flips. |
| ForumModel.FindPost | backend/models/Forum.js:129 | `posts.id(postId)` finds a post with that id, and none exactly when no post has it. |
| ForumModel.Forum.constructor | backend/models/Forum.js:92-104 | A new forum has no posts. |
| ForumModel.Forum.CreatePost | backend/models/Forum.js:113-126 | Exactly one new post is appended, and the save reports its missing title or content. A fresh id keeps post ids unique. |
| ForumModel.Forum.AddComment | backend/models/Forum.js:128-140 | An unknown post id gets "Post not found-comment" and nothing changes. Otherwise one trimmed comment is appended to that post only, and the save reports an empty comment. |
| ForumModel.ValidPostsAreDistinct | backend/models/Forum.js:92-104 | With unique ids, different positions hold different post objects. |
| ProgressModel.LessonCountAppend | backend/src/models/Progress.js:71-72 | The lesson count of concatenated chapter lists is the sum of their counts. |
| ProgressModel.TotalItemsZero | backend/src/models/Progress.js:74-77 | There is nothing to complete exactly when no chapter has a lesson. |
| ProgressModel.CompletedItemsBound | backend/src/models/Progress.js:80-85 | Completed items are at most twice the entries. Equality holds exactly when every entry has viewed content and a quiz score. |
| ProgressModel.CompletedItemsAppend | backend/src/models/Progress.js:80-85 | A new entry adds its items. |
| ProgressModel.RoundedPercentage | backend/src/models/Progress.js:87 | The result r satisfies `r - 1/2 <= 100·completed/total < r + 1/2`, stated without division. It is at most 100 when completed is at most total. |
| ProgressModel.RoundedPercentageIsNearest | backend/src/models/Progress.js:87 | In real arithmetic the result is the nearest integer to 100·completed/total, with halves rounded up, as Math.round does. |
| ProgressModel.RoundedPercentageMonotone | backend/src/models/Progress.js:87 | More completed items never lower the percentage. |
| ProgressModel.PercentageNotClamped | backend/src/models/Progress.js:80-87 | Nothing clamps the percentage: 4 completed items out of 2 give 200. |
| ProgressModel.ProgressErrors | backend/src/models/Progress.js:5-47 | A progress document is valid exactly when every recorded quiz score and the percentage lie in 0..100. |
| ProgressModel.Progress.constructor | backend/src/models/Progress.js:30-61 | A new progress has no completed lessons and a percentage of 0. |
| ProgressModel.Progress.CalculatePercentage | backend/src/models/Progress.js:64-91 | A missing course leaves the percentage unchanged. A course without lessons sets it to 0. Otherwise it becomes the rounded share of completed items, within 0..100 when completed items do not exceed the total. |

## Left out

**Libraries, the environment and the runtime**
- bcrypt, jsonwebtoken, crypto's sha256, and validator's `isEmail`, `isJWT` and `normalizeEmail` are uninterpreted fields of `Primitives`. They are foreign code. The session lemmas assume only `JwtSound`: a signed token verifies with its claims until it expires. Issue time and lifetime are in whole seconds, and signing is deterministic (HS256).
- Clock, randomness and salts are parameters: `Date.now()`, `crypto.randomBytes` and bcrypt's salt are passed in as `now`, `random` and `salt`. Whether the mailer fails is the parameter `mailError`. Mail is not actually sent.
- Concurrency is not modelled: each handler runs as one atomic step. Interleavings of the awaits, such as two refreshes racing on one token, are out of scope.
- ObjectIds are natural numbers drawn from a counter in `Store.Db`. Comparing ids "as strings" is value equality.
- `Forum.CreatePost` takes the new post's id from its caller. Mongoose generates it, and fresh ids are what keep `Forum.Valid`.
- Environment loading in `jwt.config.js` (the thrown error for missing secrets) is not modelled. The expiry constants are `AccessTtl` and `RefreshTtl`.

**Mongoose details**
- Validation messages are listed path by path in schema order. Mongoose's combined `ValidationError` message, its `Path ... is required.` formatting and its exact order across nested documents are not reproduced.
- `ProgressErrors` names the failing paths (`quiz_score`, `percentage_completed`) instead of Mongoose's value-formatted min/max messages.
- `CourseModel.AverageRating` counts a missing rating as 0, where JavaScript's sum would give NaN. Its `toFixed(1)` formatting is not modelled.
- `ForumModel.Comment.ToggleLike` models the in-memory change only. The source's `this.parent().save()` on a sub-document saves nothing by itself, so the change is not persisted. That persistence behaviour is not modelled.
- `ForumModel.Forum.CreatePost` and `ForumModel.Forum.AddComment` report only the new post's or comment's validation messages, not a re-validation of the whole forum document.
- `ProgressModel.Progress.CalculatePercentage` stores percentages above 100 (see `PercentageNotClamped`). The pre-save hook computes the percentage after validation has run, so the schema's max is not applied to the stored value.
- An absent `quiz_score` is `None`. An explicit `null` is treated the same way.
- Indexes other than the unique e-mail index, timestamps, the `findByCourse` population and `getCurrentUser` are not modelled. They are lookups, not core behaviour.
- A missing refresh cookie reads as the empty string.
- `CourseModel.Course` saves with the schemas as written (`ChapterErrors`). The content rule exists only in the corrected validators (`ChapterErrorsCorrected`), which no save uses.

**Numbers and strings**
- JavaScript numbers are mathematical reals or integers. Floating-point rounding is not modelled: `Math.round` of a float product can differ at .5 ties (for example `0.075 * 100`), and `RoundedPercentage` is the exact value.
- Lower-casing covers ASCII letters only. There is no Unicode case folding.

**Weakened contracts**
- AuthController.ResetPassword: requires a non-empty new password, as the reset route's validation chain guarantees (`Validation.RoutesAdmitOnlyValidInput`). The 500 answer that an empty password would draw from the schema's required rule on save is not modelled.
- Sessions.RefreshReplayRejected: assumes the rotation issued a token different from the one presented. A refresh in the same second as the token's issue re-issues the same token (`SameSecondRefreshKeepsToken`), so the old token stays valid and replaying it is not refused.

## Findings

| source | as written | input that shows it | evidently intended | confidence | as-written member | corrected member |
|---|---|---|---|---|---|---|
| backend/src/controllers/auth.controller.js:117-121 | The admin branch of login passes `{ id: admin._id, role, isAdmin }` to generateTokens, which reads `user._id`. The access token therefore has no id, and the bearer middleware's `Admin.findById(undefined)` finds nothing. | Any administrator logging in with the right password, then calling a protected route | The token carries the admin's id, so the admin is let through | high, not executed | AuthController.AdminSubjectAsWritten, Sessions.AdminTokenRejectedAsWritten, Sessions.AdminLoginRejectedAsWritten | AuthController.AdminSubject, AuthController.LoginStepCorrected, Sessions.AdminLoginTokenAuthenticates |
| backend/src/middleware/validation.middleware.js:18-33 | `escape()` runs before the registration `isLength({min: 6})` rule, so the length of the escaped text is checked | Password `<<` (2 characters, escaped to 8) is accepted at registration | Check the length of the password the user typed | high, not executed | Validation.PasswordChainAsWritten, Validation.ShortPasswordPassesAsWritten | Validation.PasswordChain, Validation.PasswordRules, Validation.CorrectedRoutesAdmitSixTyped |
| backend/models/Course.js:70-82 | The "video or document" validator sits in the schema options object, where Mongoose ignores it | A lesson with `content: {}` and a valid quiz is accepted | Content must hold a video or a document | medium, not executed | CourseModel.ContentErrorsAsWritten, CourseModel.EmptyContentAcceptedAsWritten | CourseModel.ContentErrors, CourseModel.LessonErrors, CourseModel.ChapterErrorsCorrected |
