# Blog list API — a Dafny model

A model of the core of a small Express/Mongoose blogging API. Users log in and receive a
one-hour bearer token. With that token they create, list, update and delete blog posts,
and only a post's owner may delete it. Separately, an aggregator computes statistics over
a list of posts: total likes, the favourite post, the most prolific author and the most
liked author.

The model is functional. Records are immutable datatypes. The database is a `Store` of two
collections kept in natural (insertion) order. Every route handler is a pure function from
the store and request to the new store and an outcome, where the outcome is either a
response or a thrown error. Password hashing (bcrypt) and token signing (JWT) are passed
in as functions. What the server relies on from signing is stated as a predicate,
`Jwt.Laws`: a signed token is never empty, and it verifies to its claims strictly before
its `exp` time and is expired from then on (RFC 7519, section 4.1.4).

Modules, leaf to root:

| module | models |
|---|---|
| `Wrappers` | `Option` for `undefined`/`null`, and `Result` |
| `Text` | `startsWith`, `indexOf`, `replace` with a string pattern, `includes` |
| `PropertyOrder` | the order JavaScript lists an object's keys in (ECMA-262, section 10.1.11.1) |
| `Extremum` | the running-maximum scans: the `reduce` in `favoriteBlog`, and lodash `maxBy` |
| `ListHelper` | `utils/list_helper.js`, with lodash `groupBy`/`mapValues`/`sumBy` semantics |
| `Json`, `Http` | response values, responses, thrown errors |
| `Models` | `models/user.js`, `models/blog.js`: records, `toJSON` transforms, user schema rules, ObjectId casting |
| `Collections` | the store and its lookups by id |
| `Jwt` | token issue and verification, as given functions with laws |
| `Middleware` | `utils/middleware.js` |
| `BlogsController` | `controllers/blogs.js` |
| `LoginController` | `controllers/login.js` |
| `App` | the `/api/blogs` pipeline of `app.js`: token extractor, then user extractor, then router, then error handler |

Behaviour worth noting:

- A post without an author is grouped under the key string `"undefined"`. It therefore
  shares a group with an author literally named "undefined", rather than forming a group
  of its own.
- `mostBlogs` returns `{author, blogs}`, not `{author, count}`.
- Ties in `mostBlogs`/`mostLikes` go to the first maximal entry in `Object.entries` order.
  That order lists array-index author names such as "7" before all other names.
- A request without a token does not reach the blogs handlers. `userExtractor` runs for
  every `/api/blogs` request, including GET, and `jwt.verify` throws `JsonWebTokenError`
  for a falsy token: null, or the empty string left by a header that is exactly
  "Bearer ". The answer is 401 `invalid token`.
- `minlength: 3` counts UTF-16 code units, as JavaScript's `length` does, so a
  character outside the Basic Multilingual Plane counts twice (`Models.JsLength`).
- Deleting a blog that has no owner, or deleting without an attached user, throws a
  `TypeError` that the error handler passes on, so Express answers 500.
- A delete by someone other than the owner answers 401. PUT has no ownership check and
  needs no particular user.

## Model

| member | source | states |
|---|---|---|
| ListHelper.DummyIsOne | utils/list_helper.js:3-5 | `dummy` returns 1 for every list |
| ListHelper.TotalLikes | utils/list_helper.js:8-10 | with no negative likes the total is non-negative and at least each blog's likes |
| ListHelper.TotalLikesAppend | utils/list_helper.js:8-10 | the total likes of a concatenation is the sum of the two totals |
| ListHelper.TotalLikesCons | utils/list_helper.js:9 | the total is the first blog's likes plus the total of the rest |
| ListHelper.TotalLikesExamples | tests/total_likes.test.js:6-48 | the empty list totals 0, any one blog totals its own likes, and likes 5, 10, 7 total 22 |
| ListHelper.FavoriteBlog | utils/list_helper.js:12-26 | null exactly for the empty list; otherwise the `{title, author, likes}` of some input blog, whose likes are at least every blog's, and which is preceded only by blogs with strictly fewer likes |
| ListHelper.FavoriteIsFirstMax | utils/list_helper.js:17-19 | the favourite is the summary of the first blog with maximal likes |
| ListHelper.FavoriteTieExample | utils/list_helper.js:18 | of any two blogs with equal likes, the first is the favourite |
| Extremum.ScanFindsFirstMax | utils/list_helper.js:17-19 | a scan that replaces the running best only on a strictly greater score ends at the first maximal element |
| Extremum.FirstMaxUnique | utils/list_helper.js:18 | there is only one first maximal element |
| Extremum.MaxBy | utils/list_helper.js:45 | lodash `maxBy` gives none exactly for an empty input, and otherwise the first element with the greatest score |
| ListHelper.GroupKeys | utils/list_helper.js:35 | the keys `groupBy` creates: each author key exactly once, and exactly the keys some blog carries |
| ListHelper.Key | utils/list_helper.js:35 | the grouping key is the author's name, and it is "undefined" exactly for a missing author or one literally named "undefined" |
| ListHelper.FirstAt | utils/list_helper.js:35 | the position of the first blog with the given author key, or the list length when there is none |
| ListHelper.GroupKeysOrder | utils/list_helper.js:35 | `groupBy` creates the keys in order of first appearance: each key first appears in the list, and an earlier key first appears earlier |
| ListHelper.Group | utils/list_helper.js:35 | a group holds exactly the blogs whose author key equals the group's key |
| ListHelper.GroupIsFilter | utils/list_helper.js:35 | a group is the list filtered by author key with the order kept, equal to a front-to-back reference filter |
| ListHelper.GroupMultiplicity | utils/list_helper.js:35 | a blog occurs in its author's group as often as in the list, and in no other group |
| ListHelper.GroupOfNonKey | utils/list_helper.js:35 | a key no blog carries has an empty group |
| ListHelper.GroupAppend | utils/list_helper.js:35 | appending a blog extends its own author's group and no other |
| ListHelper.GroupsPartition | utils/list_helper.js:35-39 | for any measure that adds up blog by blog, the group measures add up to the measure of the whole list |
| ListHelper.GroupSizesSum | utils/list_helper.js:35-39 | group sizes add up to the number of blogs |
| ListHelper.GroupLikesSum | utils/list_helper.js:59-60 | the authors' like totals add up to `totalLikes` of the list |
| ListHelper.ListingMembers | utils/list_helper.js:45 | `Object.entries` of the mapped groups lists exactly the authors |
| ListHelper.Listing | utils/list_helper.js:39-45 | re-creating the groups' keys in `mapValues` leaves their order unchanged: `Object.entries` lists the keys in the order of the keys `groupBy` created |
| ListHelper.Entries | utils/list_helper.js:39-45 | one `[author, value]` entry per listed author, in listing order, whose value is the mapped value of that author's group |
| ListHelper.TopEntry | utils/list_helper.js:45 | the chosen entry is an author's, its value is that author's group value, no author's value is greater, and every author listed before it has a strictly smaller value |
| ListHelper.FirstMaxEntry | utils/list_helper.js:45 | the first maximal entry of `Object.entries` names a listed author, carries that author's group value, is not exceeded by any author, and every author listed before it has a strictly smaller value |
| ListHelper.MostBlogs | utils/list_helper.js:28-52 | null exactly for the empty list; otherwise `{author, blogs}` where `blogs` is that author's number of blogs, no author has more, and every author listed earlier has fewer |
| ListHelper.MostBlogsFirstListed | utils/list_helper.js:45-51 | when the first listed author has as many blogs as any other, that author and their count are the answer |
| ListHelper.MostBlogsTwoTied | utils/list_helper.js:45-51 | of two listed authors with equally many blogs, the one listed first is the answer |
| ListHelper.MostBlogsTieExample | utils/list_helper.js:45 | for blogs by "Ann" then "Bob", one each, "Ann" (who wrote first) is the answer; names that are not array indices keep writing order |
| ListHelper.PlainKeyGroups | utils/list_helper.js:35-45 | for authors "Ann" then "Bob", the listing is "Ann", "Bob" and each group has one blog |
| ListHelper.MostBlogsIndexKeyExample | utils/list_helper.js:45 | an author named "7" is listed first and wins a tie against "Zoe", who wrote first |
| ListHelper.IndexKeyGroups | utils/list_helper.js:35-45 | for authors "Zoe" then "7", the listing is "7", "Zoe" and each group has one blog |
| ListHelper.MostLikes | utils/list_helper.js:54-67 | null exactly for the empty list; otherwise `{author, likes}` where `likes` is that author's total likes, no author's total is greater, and every author listed earlier has a smaller total |
| PropertyOrder.OwnKeysPermutes | utils/list_helper.js:45 | an object's key listing is a permutation of the keys created |
| PropertyOrder.SelectSplits | utils/list_helper.js:45 | splitting the keys into array indices and the rest loses and duplicates no key |
| PropertyOrder.SelectKeeps | utils/list_helper.js:45 | each part of the split holds only keys of its own kind |
| PropertyOrder.OwnKeysOrder | utils/list_helper.js:45 | the listing puts array-index keys first in ascending numeric order, then the others in creation order |
| PropertyOrder.OwnKeysMembers | utils/list_helper.js:45 | a key is listed exactly when it was created |
| PropertyOrder.OwnKeysIdempotent | utils/list_helper.js:39 | re-creating keys in listing order, as `mapValues` does, leaves the listing unchanged |
| PropertyOrder.OwnKeysPlain | utils/list_helper.js:45 | keys none of which is an array index are listed in creation order |
| PropertyOrder.IndexKeyFirstExample | utils/list_helper.js:45 | keys created as "Zoe", "7" are listed as "7", "Zoe" |
| Text.IndexOf | utils/middleware.js:71 | -1 exactly when the pattern occurs nowhere; otherwise an occurrence with none before it |
| Text.StartsWith | utils/middleware.js:70 | `startsWith` holds exactly when `indexOf` is 0 |
| Text.ReplaceFirst | utils/middleware.js:71 | with no occurrence the string is unchanged; otherwise the first occurrence, and only it, is replaced |
| Text.IncludesIffOccurs | utils/middleware.js:49 | `includes` holds exactly when the pattern occurs somewhere |
| Text.ReplacePrefix | utils/middleware.js:70-71 | replacing a prefix of the string with nothing leaves exactly the rest |
| Text.PrefixRoundTrip | utils/middleware.js:70-71 | a prefix followed by a text starts with the prefix, and removing the prefix gives back the text |
| Middleware.UnknownEndpoint | utils/middleware.js:24-26 | an unmatched route is answered 404 `{error: 'unknown endpoint'}` |
| Middleware.ErrorHandler | utils/middleware.js:39-61 | CastError gives 400 `malformatted id`; ValidationError gives 400 with its own message; a MongoServerError containing `E11000 duplicate key error` gives 400 with the unique-username message; JsonWebTokenError gives 401 `invalid token`; TokenExpiredError gives 401 `token expired`; every other error, including any other MongoServerError, is passed on |
| Middleware.ErrorHandlerStatuses | utils/middleware.js:39-61 | every answer of the error handler is 400 or 401 |
| Middleware.TokenExtractor | utils/middleware.js:68-76 | a token exactly when the header starts with "Bearer ", and then the header is "Bearer " followed by the token |
| Middleware.ExtractBearer | utils/middleware.js:70-71 | "Bearer " followed by a token yields that token |
| Middleware.ExtractRejectsOtherForms | utils/middleware.js:70-74 | a missing header, "bearer ..." and "Bearer" without the space yield null |
| Middleware.UserExtractor | utils/middleware.js:82-88 | a rejected token throws the matching JWT error; claims without a truthy id attach nothing; a truthy id that is not an ObjectId throws a CastError; otherwise a user is attached exactly when some stored user has the cast id, and it is such a user |
| Jwt.Verify | utils/middleware.js:83 | a falsy token, missing or empty, is rejected as invalid with "jwt must be provided" before the verifier is asked; any other token gets the verifier's verdict |
| Jwt.IssuedTokenLifetime | controllers/login.js:43-47 | an issued token gives back its claims for exactly 3600 seconds and is expired from then on |
| Collections.Find | controllers/blogs.js:62 | -1 exactly when no element has the key; otherwise the first element with it |
| Collections.FindUnique | controllers/blogs.js:72 | with unique ids, the lookup finds the one element with that id |
| Collections.AppendUnique | controllers/blogs.js:45 | appending an element whose key no element has keeps the keys unique |
| Collections.RemoveAtUnique | controllers/blogs.js:72 | removing an element keeps the keys unique, and no remaining element has the removed key |
| Collections.AppendBlogKeepsValid | controllers/blogs.js:45 | saving a blog with a fresh printed ObjectId keeps the store valid |
| Collections.RemoveBlogKeepsValid | controllers/blogs.js:72 | deleting any one blog keeps the store valid |
| Collections.SetUserBlogsKeepsValid | controllers/blogs.js:47-49 | replacing a user's blog list keeps the store valid |
| Collections.FindUserById | utils/middleware.js:85 | a CastError exactly for a malformed id; otherwise the stored user with the cast id, or none when no user has it |
| Models.CastObjectId | controllers/blogs.js:62 | an id casts exactly when it is 24 hexadecimal digits, and it casts to their lower-case form |
| Models.CastPrintedId | controllers/blogs.js:68 | a printed id casts to itself |
| Models.UserTransform | models/user.js:34-41 | the output has `id` set to the printed `_id`; `_id`, `__v` and `passwordHash` are removed; every other field passes through unchanged |
| Models.UserToJsonFields | models/user.js:5-41 | a serialised user has exactly `id`, `username`, `blogs` and its `name` if it has one, each equal to the stored value |
| Models.UserToJsonHidesHash | models/user.js:39 | users that differ only in the password hash serialise identically |
| Models.UserSummary | controllers/blogs.js:16-17 | the populated owner has exactly `id`, `username` and its `name` if it has one |
| Models.BlogTransform | models/blog.js:25-34 | the output has `id` set to the printed `_id`; `_id` and `__v` are removed; every other field passes through unchanged |
| Models.TransformKeeps | models/blog.js:25-34 | fields other than `_id`, `__v` and `id` read the same before and after the transform |
| Models.BlogJsonRoundTrip | models/blog.js:6-34 | reading a serialised blog back gives the stored blog, and the output has `id` but neither `_id` nor `__v` |
| Models.Problems | models/user.js:6-17 | a user draft has no validation problems exactly when `username` and `passwordHash` are present with a JavaScript length of at least 3 |
| Models.JsLength | models/user.js:10-16 | the JavaScript length `minlength` compares is at least the number of characters, and 0 only for the empty string |
| Models.JsLengthBmp | models/user.js:10-16 | for text inside the Basic Multilingual Plane the JavaScript length is the number of characters |
| Models.EmojiNameLongEnough | models/user.js:10 | the username of U+1F600 (outside the BMP) followed by one letter has 2 code points but JavaScript length 3, so it meets `minlength: 3` |
| Models.FindByUsername | controllers/login.js:16 | none exactly when no stored user has the username; otherwise a stored user with it |
| Models.SaveUser | models/user.js:5-28 | saving succeeds exactly when the schema rules hold and the username is not taken; an invalid draft throws a ValidationError; a valid draft with a taken username throws the E11000 duplicate-key error; success appends the user with the fresh id and no blogs |
| Models.SaveUserKeepsRules | models/user.js:6-17 | saving keeps every stored user valid and every username unique |
| BlogsController.List | controllers/blogs.js:15-20 | GET answers 200 with one entry per stored blog, in store order, each with its owner populated |
| BlogsController.Populated | controllers/blogs.js:16-17 | the populated blog keeps every serialised field except `user`; `user` is null exactly when no stored user has the owner's id, and otherwise the summary of such a user |
| BlogsController.Create | controllers/blogs.js:26-52 | a falsy title or url answers 400 `title or url missing` and changes nothing; without a user it throws and changes nothing; with both fields truthy and a user still stored it answers 201; any change appends exactly one blog with the body's fields, the user's id and `likes || 0`; a 201 appends the id to the end of the user's blog list, leaves every other user unchanged, and answers with the new blog |
| BlogsController.NewBlog | controllers/blogs.js:37-43 | the new blog carries the body's title, author and url, the fresh id, the attached user as owner, and the body's likes or 0 when absent |
| BlogsController.LikesOrZero | controllers/blogs.js:41 | the default is 0 exactly when likes are absent or 0, and any given number is kept |
| BlogsController.Save | controllers/blogs.js:45-51 | the new blog is appended; the save throws, leaving the users unchanged, exactly when the user is no longer stored, and otherwise answers; on 201 exactly that user's blog list gains the new id and the body is the saved blog |
| BlogsController.CreateKeepsStoreValid | controllers/blogs.js:37-49 | creating with a fresh id keeps ids valid and unique, and keeps the user rules |
| BlogsController.Remove | controllers/blogs.js:59-74 | a malformed id throws a CastError; an unknown id answers 404 `Blog not found`; a blog without an owner, or a request without a user, throws a TypeError; a different owner gets 401 with the permission message; the owner's request removes exactly that blog and answers 204; only that request changes the store, and no user changes |
| BlogsController.RemoveFound | controllers/blogs.js:68-73 | the owner's request removes exactly the found blog and answers 204; another owner gets 401 with the permission message; a missing owner or user throws a TypeError; anything but 204 changes nothing |
| BlogsController.OwnerCheck | controllers/blogs.js:68 | a blog without an owner throws first, then a missing user throws; otherwise it succeeds, and it says "same owner" exactly when the blog's owner is the user's id |
| BlogsController.RemoveLeavesNoCopy | controllers/blogs.js:72 | after the owner deletes a blog, no blog with that id remains |
| BlogsController.RemoveKeepsStoreValid | controllers/blogs.js:72 | deleting keeps the store valid |
| BlogsController.Update | controllers/blogs.js:77-92 | a malformed id throws a CastError; an unknown id answers 200 with null; otherwise exactly title, author, url and likes take the body's values, absent ones included, while id, owner, users and every other blog stay the same, and the updated blog is answered with 200 |
| BlogsController.UpdateKeepsStoreValid | controllers/blogs.js:87 | updating keeps the store valid |
| LoginController.Login | controllers/login.js:12-56 | an unknown username and a wrong password both get 401 `invalid username or password`; 200 exactly when the user exists and the password matches, and then the body carries a token signed for the user's claims with expiry 3600 seconds later |
| LoginController.UnknownUserSkipsCompare | controllers/login.js:19-21 | for an unknown username the answer does not depend on the password comparator |
| LoginController.LoginBodyFields | controllers/login.js:53-55 | the success body is exactly `token`, `username` and the stored user's `name` if it has one |
| LoginController.LoginTokenClaims | controllers/login.js:32-47 | the login token verifies to exactly `{username, id}` of the stored user for an hour and is expired from then on |
| App.Finish | app.js:60 | a thrown error gets the error handler's answer, or a 500 when the handler passes it on |
| App.HandleBlogs | app.js:45-60 | a token that fails verification gets 401 `token expired` for an expired one and 401 `invalid token` otherwise; a decoded truthy id that is not an ObjectId gets 400 `malformatted id`; every rejection leaves the store unchanged |
| App.RouteAttached | app.js:55 | once the user extractor has attached a user, the request's effect and answer are the blogs router's for that user |
| App.MissingTokenRefused | app.js:55 | every blogs request without a "Bearer " header, or with "Bearer " and nothing after it, GET included, gets 401 `invalid token` and changes nothing |
| App.ExpiredTokenRefused | utils/middleware.js:55-58 | a token used an hour or more after issue gets 401 `token expired` and changes nothing |
| App.StoredUserFound | utils/middleware.js:84-85 | the id in a stored user's token finds that user |
| App.LoginThenCreate | tests/blog_api.test.js:85-105 | posting a blog within the hour after logging in answers 201, adds one blog, and makes it the last blog, owned by the logged-in user |
| App.CreateAsStoredUser | controllers/blogs.js:26-51 | a stored user posting a title and url gets 201 and the new last blog, owned by that user, with that title |
| App.DuplicateUsernameAnswered | utils/middleware.js:49-50 | a duplicate username from the unique index gets 400 with the message that the username must be unique |
| App.InvalidUserAnswered | utils/middleware.js:45-46 | a schema violation gets 400 with the validator's message |
| App.MalformedIdAnswered | utils/middleware.js:42-43 | a malformed id in a delete or update gets 400 `malformatted id` |

## Left out

- Logging: `requestLogger` and every `logger` call only write logs.
- Express and Mongoose plumbing: CORS, JSON body parsing, `listen`, connecting to the
  database, and async/await scheduling. Path matching is left out too: `App.HandleBlogs`
  receives the route already decided as a `BlogAction`. Express's case-insensitive,
  trailing-slash-tolerant matching is not modelled.
- The users router (registration) is not part of this model. `Models.SaveUser` models
  what saving a user document does under the user schema. Its validation messages follow
  Mongoose's default wording, which is not in this repository.
- bcrypt and the token cryptography: the comparator, signer and verifier are parameters.
  The secret is whatever those functions close over.
- Jwt.Verify: for a token that was never signed with the secret (forged or tampered), the
  model says nothing beyond what the given verifier returns. `Jwt.Laws` constrains only
  tokens produced by the signer.
- Numbers are integers. Likes that are fractional, `NaN` or missing are not modelled. A
  missing `likes` would make `totalLikes` produce `NaN`.
- Request fields are strings or absent. Truthiness of numbers, booleans and `null` in
  `title` or `url` is not modelled. The login body's `username` and `password` are
  strings, so `findOne` with an undefined username is not modelled.
- BlogsController.Update: writes an absent body value into the stored blog as absent. How
  a particular Mongoose version treats `undefined` inside an update document (some drop
  the key and keep the old value) is not modelled.
- Models.CastObjectId: only the 24-hex-digit form is accepted. The 12-byte string form
  some ObjectId versions also accept is not modelled.
- The `__v` version key is always 0. Mongoose's version increments are not modelled.
- ListHelper.Key: lodash's `groupBy` keys a blog whose author is `null` as "null", grouping it with an author literally named "null"; the model's `None` is an absent author only, so `null` authors are not modelled.
- BlogsController.Save: Mongoose's `user.save()` validates the user before writing it.
  The model writes the extended blog list without that validation. Skipping it changes
  nothing while `UsersValid` holds, because only the blog list changes and the schema
  rules do not mention it.
- The 500 page of Express's default error handler is modelled as a plain text body.
- Fresh ids for new documents come from a parameter (`freshId`). The caller must
  guarantee it is unused, as the database does.
