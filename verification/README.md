# java_prj core in Dafny

This project models the core of a Spring Boot community site with a browser front end. The site's parts are:

- a snake game whose scores feed per-game leaderboards, kept in Redis sorted sets and backed by a `game_scores` table;
- a bulletin board with posts and comments;
- user accounts with sign-up and login;
- a news feed that follows categories.

The model covers:

- **Server-side logic:**
  - the leaderboard pipeline of `GameService`;
  - the account rules of `UserService`;
  - the entity updates and masking helpers of `Board`, `Comment`, `UserInfoResponse` and `BoardResponse`;
  - the row-level `UPDATE`, `count` and ordered `find` queries of `BoardRepository` and `CommentRepository`;
  - the news operations of `NewsService`.
- **Browser logic:**
  - the `SnakeGame` state machine of `game.js`;
  - the validators and submit gates of `signup.js`, `login.js` and `write.js`;
  - the list state of `board.js` (slicing, page buttons, search, category filter, sort).

How each part is written in Dafny:

- Stateful parts are classes whose methods modify their fields: `GameService`, `SnakeGame`, `Board`, `Comment`, `UserService`, `SignupForm`, `BoardPage`, `BoardRepository`, `CommentRepository` and `NewsService`.
- Every such method's `ensures` gives the new state as a function of the old one.
- The pure parts are functions with contracts, and lemmas relate several calls.

Modules:

| module | content |
|---|---|
| `Wrappers` | `Option` and `Result`; timestamps as opaque integers |
| `Text` | ECMAScript whitespace, `trim`, ASCII `toLowerCase`, `includes` and `indexOf` |
| `Seqs` | `Array.prototype.filter` and its laws, and `slice` as `Window` |
| `Sorting` | a stable descending sort by a two-part key, used for `Array.prototype.sort` and for SQL `ORDER BY` |
| `SortedSet` | the Redis sorted-set operations the leaderboard uses: `ZADD`, `ZREMRANGEBYRANK`, `ZREVRANGE` |
| `GameRanking` | `GameService` |
| `Snake` | `game.js` |
| `Users` | the user entity |
| `Masking` | the e-mail and nickname masking algorithms |
| `UserInfo` | `UserInfoResponse` |
| `BoardEntity` | the `Board` entity |
| `CommentEntity` | the `Comment` entity |
| `BoardView` | `BoardResponse` |
| `Accounts` | `UserService` |
| `Patterns` | the e-mail and nickname regular expressions of the pages |
| `SignupRules`, `SignupPage` | `signup.js` |
| `Login` | `login.js` |
| `Write` | `write.js` |
| `BoardList` | `board.js` |
| `BoardTable` | `BoardRepository` |
| `CommentTable` | `CommentRepository` |
| `NewsFeed` | `NewsService` |

Decisions that shape the model:

- **Leaderboard order.** A leaderboard is kept as Redis keeps it: members ascending by (score, member name). Redis compares member names as bytes. `GameService` uses a `RedisTemplate<String, Object>` whose serializer configuration is not part of this model. The model assumes a string serializer that stores a nickname as its UTF-8 text, so names compare code point by code point. (With Spring's default JDK serializer the bytes start with a length prefix, and shorter names would sort first.) That tie order decides which member the trim to 1000 evicts and the order of equal scores in a ranking.
- **Fallback order.** The table fallback calls `findTopByGameTypeOrderByScoreDesc`, which `GameScoreRepository` does not declare. It is modelled by its intent: that game's rows, highest score first (a stable sort over insertion order), the first `limit` of them.
- **`getTopRankings` with `limit <= 0`.** `reverseRange(key, 0, limit - 1)` then has a negative stop index, which Redis counts from the end. `limit == 0` therefore returns the whole leaderboard, and a negative limit returns all but the lowest `-limit` members. This is modelled as written (`SortedSet.TopRange`). The table path throws for `limit < 1`, and that exception is caught and gives the empty list.
- **Failures as parameters.** Whether the Redis, Kafka and database calls succeed is a parameter of each operation (`CacheFault`, `Broker`, `StoreOutcome`, `cacheUp`, `dbUp`). The same goes for the clock (`now`, `millis`), the random cells of `generateFood` (`rolls`) and the replies of the availability checks and of the post list request.
- **`ORDER BY` in `findLatestNews`.** Spring Data appends a `Pageable`'s sort after a query's own `ORDER BY`. So `getNews(page, size, null, "popular")` is ordered by `createdAt` descending, with `viewCount` descending breaking ties only. The model says exactly that (`NewsFeed.LatestKey`).
- **Ties in SQL.** The order of rows that tie under a query's `ORDER BY` is unspecified in SQL. The model computes one order, resolving ties by table order through its stable sort. The contracts of the paged queries do not depend on that choice: they state that the result is a window of some descending sort of the matching rows (`Sorting.IsSortedPage`).
- **Duplicate follows.** `deleteByFollowerId` is a derived delete. It loads the user's rows and marks them for removal, and the removal reaches the table only at the flush. Each `save` of a new `UserFollow` (IDENTITY key) inserts at once. So a category repeated in the list, or one the user already follows, violates the `(followerId, category)` unique constraint. The transaction is then rolled back: the model returns an error and the follows are as before. See "## Findings".
- **Dead branch in `validateLoginInfo`.** The inner e-mail re-check in `login.js` cannot fail. `Login.ValidateLoginInfo` keeps it, and its contract shows that the verdict does not depend on it.
- **Hangul nicknames.** `signup.js` allows Hangul syllables (가-힣) in nicknames. The server-side bean validation in `UserSignupRequest` (not part of this model) forbids them.

## Model

| member | source | states |
|---|---|---|
| SortedSet.Score | src/main/java/com/prj/cursor/service/GameService.java:88-91 | a name's stored score, present iff the name is a member |
| SortedSet.Add | src/main/java/com/prj/cursor/service/GameService.java:88-89 | ZADD sets the member's score whatever the old one was; other members stay; the size grows by one only for a new name; the set stays ordered and name-unique |
| SortedSet.RemoveRangeByRank | src/main/java/com/prj/cursor/service/GameService.java:91 | ZREMRANGEBYRANK with Redis index normalisation keeps an ordered subset of the members |
| SortedSet.Trim | src/main/java/com/prj/cursor/service/GameService.java:91 | `removeRange(key, 0, -1001)` leaves at most 1000 members, changes nothing when there are at most 1000, and otherwise keeps exactly the top 1000 |
| SortedSet.TrimDropsLowest | src/main/java/com/prj/cursor/service/GameService.java:91 | every member the trim drops ranks below every member it keeps |
| SortedSet.ReverseRange | src/main/java/com/prj/cursor/service/GameService.java:108 | ZREVRANGE returns members of the set, highest rank first |
| SortedSet.TopRange | src/main/java/com/prj/cursor/service/GameService.java:108 | `reverseRange(key, 0, limit-1)` gives the top `limit` for limit >= 1, all but the lowest `-limit` members for limit <= 0, and the whole set for limit 0 |
| SortedSet.Update | src/main/java/com/prj/cursor/service/GameService.java:88-91 | the add-then-trim update keeps the set ordered and at most 1000 long |
| SortedSet.LastWriteWins | src/main/java/com/prj/cursor/service/GameService.java:88-91 | after an update the nickname's score is the new score even when lower than before (not the maximum); it is absent only when the full board evicted it, and then it ranks below every kept member |
| SortedSet.OthersKeepScore | src/main/java/com/prj/cursor/service/GameService.java:88-91 | every other member keeps its score unless the trim evicted it |
| SortedSet.UpdateIdempotent | src/main/java/com/prj/cursor/service/GameService.java:179-182 | applying the same update twice equals applying it once |
| SortedSet.SameMembers | src/main/java/com/prj/cursor/service/GameService.java:88-91 | two ordered, name-unique sets with the same members are equal |
| GameRanking.KeyInjective | src/main/java/com/prj/cursor/service/GameService.java:84 | distinct game types never share a `"ranking:"` key |
| GameRanking.BoardOf | src/main/java/com/prj/cursor/service/GameService.java:106-108 | a game type's leaderboard, empty when the key is missing, is a valid sorted set |
| GameRanking.UpdatedBoards | src/main/java/com/prj/cursor/service/GameService.java:82-99 | a failure at ZADD changes nothing; otherwise the game's key holds the added board, trimmed to 1000 unless the trim fails; no other key changes |
| GameRanking.UpdateIsolated | src/main/java/com/prj/cursor/service/GameService.java:84 | an update for one game type leaves every other game type's leaderboard as it was |
| GameRanking.UpdateTwice | src/main/java/com/prj/cursor/service/GameService.java:51-91 | the direct update followed by the consumer's identical update equals one update |
| GameRanking.CacheRankings | src/main/java/com/prj/cursor/service/GameService.java:108-128 | as many entries as ZREVRANGE 0 (limit - 1) returns; entry i carries the i-th returned member's nickname and rank i + 1, and every entry the one read time `now` |
| GameRanking.CacheRankingsOrdered | src/main/java/com/prj/cursor/service/GameService.java:108-128 | entry i is the i-th ZREVRANGE member with its stored score; ranks run 1..k and scores never increase; exactly min(limit, board size) entries for limit >= 1, the whole board for limit == 0; every entry is a leaderboard member, and no member left out scores above a listed entry |
| GameRanking.CacheEntries | src/main/java/com/prj/cursor/service/GameService.java:115-123 | the score looked up per listed nickname is that member's stored score |
| GameRanking.ReverseRangeTop | src/main/java/com/prj/cursor/service/GameService.java:108 | a member outside ZREVRANGE 0 (limit - 1) scores no more than any member inside it |
| GameRanking.TopScores | src/main/java/com/prj/cursor/service/GameService.java:148 | the intended top-`limit` query: exactly `min(limit, n)` rows for a game with `n` rows, all of that game, highest score first, page 0 of a descending sort of the game's rows; no row of the game left out scores above a row returned |
| GameRanking.StoreRankings | src/main/java/com/prj/cursor/service/GameService.java:146-171 | empty when the database fails or `limit < 1`; otherwise exactly `min(limit, n)` entries for a game with `n` rows, ranks 1..k, scores non-increasing, and no unlisted row of the game scores above a listed entry |
| GameRanking.StoreRankingsFromRows | src/main/java/com/prj/cursor/service/GameService.java:150-162 | each table-path entry is one of the game's rows, with `playedAt` equal to its `createdAt` |
| GameRanking.TopRankingsOrdered | src/main/java/com/prj/cursor/service/GameService.java:101-141 | whichever path is taken, ranks are 1..k in order and scores never increase |
| GameRanking.Fallback | src/main/java/com/prj/cursor/service/GameService.java:132-140 | with the cache down or the leaderboard empty the answer is the table path's, and empty if the database also fails |
| GameRanking.GameService.constructor | src/main/java/com/prj/cursor/service/GameService.java:24 | no leaderboards, no rows, nothing published |
| GameRanking.GameService.UpdateRankingDirectly | src/main/java/com/prj/cursor/service/GameService.java:82-99 | the leaderboards become `UpdatedBoards` of the old ones; nothing else changes and no error escapes |
| GameRanking.GameService.UpdateRanking | src/main/java/com/prj/cursor/service/GameService.java:173-190 | the same update from a score event |
| GameRanking.GameService.SubmitScore | src/main/java/com/prj/cursor/service/GameService.java:36-77 | a failing save fails the call and changes nothing; otherwise exactly one row is appended, the leaderboard updated and the event published only if the broker accepts; cache and broker failures are swallowed |
| GameRanking.GameService.GetRankingsFromDatabase | src/main/java/com/prj/cursor/service/GameService.java:146-171 | returns `StoreRankings` of the table, so the game's top `min(limit, n)` rows ranked 1..k |
| GameRanking.GameService.GetTopRankings | src/main/java/com/prj/cursor/service/GameService.java:101-141 | never throws; returns `TopRankings`, ranked 1..k |
| Snake.Steer | src/main/resources/static/js/game.js:55-80 | an arrow never reverses the current direction; the result is still a unit step or standstill; other keys change nothing |
| Snake.TwoKeysReverse | src/main/resources/static/js/game.js:55-80 | two presses between ticks (Up then Left while moving right) do turn the snake around |
| Snake.SnakeGame.ChosenFoodFree | src/main/resources/static/js/game.js:174-197 | the food lies on the grid, and off the snake whenever one of the 100 attempts found a free cell |
| Snake.SnakeGame.constructor | src/main/resources/static/js/game.js:2-22 | the snake is [(10,10)], standing still, score 0, not playing, with food on the grid |
| Snake.SnakeGame.GenerateFood | src/main/resources/static/js/game.js:174-199 | the food is the first free roll among 100, or the last roll tried |
| Snake.SnakeGame.KeyDown | src/main/resources/static/js/game.js:47-80 | keys are ignored while not playing; otherwise the direction becomes `Steer` of the old one |
| Snake.SnakeGame.StartGame | src/main/resources/static/js/game.js:84-98 | play starts; a no-op while playing |
| Snake.SnakeGame.PauseGame | src/main/resources/static/js/game.js:100-105 | play stops |
| Snake.SnakeGame.ResetGame | src/main/resources/static/js/game.js:107-119 | play stops and the snake, direction and score are restored to the start |
| Snake.SnakeGame.GameOver | src/main/resources/static/js/game.js:205-208 | play stops and nothing else changes |
| Snake.SnakeGame.Update | src/main/resources/static/js/game.js:121-154 | nothing happens unless playing and moving; a wall or body hit ends play with snake and score unchanged; eating grows the snake by one and the score by 10; otherwise head pushed and tail dropped; the length always equals 1 + score/10 and segments stay on the grid |
| Snake.PushHead | src/main/resources/static/js/game.js:143 | adding an adjacent head not on the body keeps the snake contiguous and its cells distinct |
| Snake.DropTail | src/main/resources/static/js/game.js:152 | dropping the last cell keeps the snake contiguous and its cells distinct |
| Snake.SnakeGame.HitsBody | src/main/resources/static/js/game.js:136-141 | the loop finds a hit exactly when the new head lies on the body after the first cell |
| Snake.SnakeGame.Advance | src/main/resources/static/js/game.js:143-153 | the head is added; on food the snake keeps its tail, the score rises by 10 and new food is chosen; otherwise the tail is dropped and score and food stay; the snake stays contiguous, distinct and on the grid |
| Snake.SnakeGame.ScoreCountsFood | src/main/resources/static/js/game.js:143-153 | the score is ten points per food eaten: a non-negative multiple of 10, and the snake is one cell plus one per ten points |
| Masking.MaskEmail | src/main/java/com/prj/cursor/dto/UserInfoResponse.java:95-110 | the length is kept; an e-mail with `'@'` absent or at index 0 or 1 is returned as is |
| Masking.MaskEmailChars | src/main/java/com/prj/cursor/dto/UserInfoResponse.java:100-110 | in a maskable e-mail the first character and everything from the first `'@'` stay, every other character becomes `'*'` |
| Masking.MaskEmailIdempotent | src/main/java/com/prj/cursor/dto/UserInfoResponse.java:95-110 | masking a masked e-mail changes nothing |
| Masking.MaskNickname | src/main/java/com/prj/cursor/dto/UserInfoResponse.java:126-132 | the length is kept; up to two characters stay as is; otherwise first and last stay and the middle becomes `'*'` |
| Masking.MaskNicknameIdempotent | src/main/java/com/prj/cursor/dto/UserInfoResponse.java:126-132 | masking a masked nickname changes nothing |
| UserInfo.From | src/main/java/com/prj/cursor/dto/UserInfoResponse.java:70-80 | copies the seven public user fields unchanged |
| UserInfo.MaskedEmail | src/main/java/com/prj/cursor/dto/UserInfoResponse.java:90-111 | `""` for a null or empty e-mail; otherwise the same length, unchanged when not maskable |
| UserInfo.MaskedNickname | src/main/java/com/prj/cursor/dto/UserInfoResponse.java:121-133 | `""` for a null nickname; otherwise the same length, unchanged for at most two characters |
| UserInfo.MaskedNicknameExample | src/main/java/com/prj/cursor/dto/UserInfoResponse.java:117 | 홍길동 is shown as 홍*동 |
| BoardEntity.AuthorMaskedEmailOf | src/main/java/com/prj/cursor/entity/Board.java:150-172 | null exactly when the author or the e-mail is null; otherwise the masked e-mail |
| BoardEntity.Board.constructor | src/main/java/com/prj/cursor/service/BoardService.java:66-75 | the board as `createBoard` builds it: the given title, content, category and author, counters 0 and status ACTIVE set by the builder calls, `isActive` true by its builder default, both timestamps the creation time |
| BoardEntity.Board.UpdateBoard | src/main/java/com/prj/cursor/entity/Board.java:125-130 | title, content, category and `updatedAt` change; nothing else does |
| BoardEntity.Board.Deactivate | src/main/java/com/prj/cursor/entity/Board.java:179-182 | `isActive` becomes false whatever it was (idempotent); only `updatedAt` changes besides |
| BoardEntity.Board.Activate | src/main/java/com/prj/cursor/entity/Board.java:189-192 | `isActive` becomes true whatever it was (idempotent); only `updatedAt` changes besides |
| BoardEntity.Board.AuthorNickname | src/main/java/com/prj/cursor/entity/Board.java:139-141 | null exactly when there is no author, otherwise the author's nickname |
| BoardEntity.Board.AuthorMaskedEmail | src/main/java/com/prj/cursor/entity/Board.java:150-172 | null exactly when author or e-mail is null; otherwise the same length, unchanged when not maskable |
| CommentEntity.Comment.constructor | src/main/java/com/prj/cursor/entity/Comment.java:78-80 | `isActive` is true by default |
| CommentEntity.Comment.UpdateContent | src/main/java/com/prj/cursor/entity/Comment.java:105-108 | content and `updatedAt` change; nothing else does |
| CommentEntity.Comment.Deactivate | src/main/java/com/prj/cursor/entity/Comment.java:115-118 | `isActive` becomes false (idempotent); only `updatedAt` changes besides |
| CommentEntity.Comment.Activate | src/main/java/com/prj/cursor/entity/Comment.java:125-128 | `isActive` becomes true (idempotent); only `updatedAt` changes besides |
| CommentEntity.Comment.AuthorNickname | src/main/java/com/prj/cursor/entity/Comment.java:137-139 | null exactly when the author reference is null |
| CommentEntity.Comment.AuthorMaskedEmail | src/main/java/com/prj/cursor/entity/Comment.java:148-170 | the same masking as the board's: null for a missing author or e-mail |
| BoardView.From | src/main/java/com/prj/cursor/dto/BoardResponse.java:94-109 | copies the board's fields and takes the author's nickname and masked e-mail from the board |
| BoardView.ContentPreview | src/main/java/com/prj/cursor/dto/BoardResponse.java:119-129 | `""` for null or empty content; the content itself when it fits; otherwise the first `maxLength` characters and `"..."`; a negative `maxLength` on longer content is the `substring` exception |
| BoardView.DefaultContentPreview | src/main/java/com/prj/cursor/dto/BoardResponse.java:136-138 | equals the preview at length 100 and never fails |
| BoardView.ActiveExcludesDeleted | src/main/java/com/prj/cursor/dto/BoardResponse.java:145-156 | active iff status ACTIVE, deleted iff DELETED: never both |
| Accounts.ResponseOf | src/main/java/com/prj/cursor/dto/UserResponse.java:25-35 | every user field but the password |
| Accounts.EmailIndex | src/main/java/com/prj/cursor/service/UserService.java:146-153 | finds the user with the e-mail, or none exists |
| Accounts.NicknameIndex | src/main/java/com/prj/cursor/service/UserService.java:126-133 | finds the user with the nickname, or none exists |
| Accounts.LoginTarget | src/main/java/com/prj/cursor/service/UserService.java:224-230 | lookup by e-mail iff the login info contains `'@'`, by nickname otherwise |
| Accounts.LoginResult | src/main/java/com/prj/cursor/service/UserService.java:219-252 | unknown user, then inactive account, then wrong password, in that order; success returns the user found |
| Accounts.LoginAfterSignup | src/main/java/com/prj/cursor/service/UserService.java:79-252 | a user who has just signed up logs in with the e-mail and password |
| Accounts.DeactivatedCannotLogin | src/main/java/com/prj/cursor/service/UserService.java:184-240 | after deactivation, login with that e-mail is refused as inactive whatever the password |
| Accounts.ActiveResponses | src/main/java/com/prj/cursor/service/UserService.java:166-172 | every element is the response of an active user of the list, and every active user's response is there |
| Accounts.UserService.constructor | src/main/java/com/prj/cursor/service/UserService.java:50-58 | an empty table with the given encoder |
| Accounts.UserService.Signup | src/main/java/com/prj/cursor/service/UserService.java:79-112 | an existing e-mail is refused first, then a password mismatch, then an existing nickname, each saving nothing; success adds exactly one active USER with the encoded password |
| Accounts.UserService.FindByNickname | src/main/java/com/prj/cursor/service/UserService.java:126-133 | fails iff no user has the nickname, otherwise that user's data |
| Accounts.UserService.FindByEmail | src/main/java/com/prj/cursor/service/UserService.java:146-153 | fails iff no user has the e-mail, otherwise that user's data |
| Accounts.UserService.FindAllActiveUsers | src/main/java/com/prj/cursor/service/UserService.java:166-172 | every element is the response of an active user of the table, and every active user's response is there |
| Accounts.UserService.Login | src/main/java/com/prj/cursor/service/UserService.java:219-252 | the outcome of `LoginResult`; a success is an active user; the table is read only |
| Accounts.UserService.DeactivateUser | src/main/java/com/prj/cursor/service/UserService.java:184-197 | only that user's `isActive` becomes false; an unknown e-mail fails and saves nothing |
| Accounts.UserService.ActivateUser | src/main/java/com/prj/cursor/service/UserService.java:263-276 | only that user's `isActive` becomes true; an unknown e-mail fails and saves nothing |
| Patterns.CheckedIsEmail | src/main/resources/static/js/signup.js:254-262 | every string passing the scanning test matches `^[^\s@]+@[^\s@]+\.[^\s@]+$` |
| Patterns.EmailIsChecked | src/main/resources/static/js/signup.js:254-262 | every match of `^[^\s@]+@[^\s@]+\.[^\s@]+$` passes the scanning test |
| Patterns.EmailPatternIff | src/main/resources/static/js/signup.js:254-262 | the scanning test agrees with `^[^\s@]+@[^\s@]+\.[^\s@]+$` in both directions |
| Patterns.PatternsDisjoint | src/main/resources/static/js/login.js:82-96 | a nickname match contains no `'@'` and is never an e-mail match; an e-mail match contains `'@'` |
| SignupRules.Classes | src/main/resources/static/js/signup.js:354-357 | the number of character classes used, at most 4, and 0 exactly for the empty password |
| SignupRules.Strength | src/main/resources/static/js/signup.js:345-357 | the score lies in 0..6, is at least 1 for a non-empty password and at most 4 below eight characters |
| SignupRules.LevelOf | src/main/resources/static/js/signup.js:359-367 | weak up to 2, fair at 3, good at 4, strong from 5 |
| SignupRules.LevelMonotone | src/main/resources/static/js/signup.js:359-367 | a higher score never gives a lower level |
| SignupRules.PasswordAcceptedIff | src/main/resources/static/js/signup.js:278-303 | accepted iff at least eight characters and score at least 4; then at least two character classes, three below twelve characters |
| SignupRules.CheckPassword | src/main/resources/static/js/signup.js:278-303 | the empty, too-short and level checks in order give exactly the password verdict; an accepted password has at least eight characters and score at least 4 |
| SignupRules.StrengthMonotone | src/main/resources/static/js/signup.js:345-357 | appending characters never lowers the score |
| SignupPage.SignupForm.constructor | src/main/resources/static/js/signup.js:161-179 | empty inputs, every flag false, the button disabled |
| SignupPage.SignupForm.UpdateSignupButton | src/main/resources/static/js/signup.js:527-529 | the button is disabled iff the form is invalid |
| SignupPage.SignupForm.InputNickname | src/main/resources/static/js/signup.js:213-250 | the flag is the verdict on the trimmed nickname: 3 to 50 characters from letters, digits, Hangul syllables and `_` |
| SignupPage.SignupForm.InputEmail | src/main/resources/static/js/signup.js:253-275 | the flag is the e-mail pattern on the trimmed value |
| SignupPage.SignupForm.InputPassword | src/main/resources/static/js/signup.js:278-311 | the flag is the password verdict; a non-empty confirmation is re-checked against the new password |
| SignupPage.SignupForm.InputConfirmPassword | src/main/resources/static/js/signup.js:314-336 | the flag holds iff the confirmation is non-empty and equals the password |
| SignupPage.SignupForm.ValidateConfirmPassword | src/main/resources/static/js/signup.js:314-336 | the same check on the current inputs, and the button follows |
| SignupPage.SignupForm.ChangeTerms | src/main/resources/static/js/signup.js:339-342 | the terms flag follows the checkbox |
| SignupPage.SignupForm.NicknameAvailability | src/main/resources/static/js/signup.js:379-412 | a well-formed nickname takes the server's answer; a malformed one or a failed request leaves the flag |
| SignupPage.SignupForm.EmailAvailability | src/main/resources/static/js/signup.js:415-442 | the same for the e-mail |
| SignupPage.SignupForm.HandleSignup | src/main/resources/static/js/signup.js:462-524 | a request is built iff all five flags are true, from the trimmed nickname and e-mail |
| SignupPage.SentRequestWellFormed | src/main/resources/static/js/signup.js:462-482 | whatever is sent has a well-formed nickname and e-mail, an accepted password equal to its confirmation, and trimmed fields |
| Login.ValidateLoginInfo | src/main/resources/static/js/login.js:69-100 | accepted iff the trimmed value matches the e-mail pattern or the nickname pattern; empty is rejected |
| Login.ValidatePassword | src/main/resources/static/js/login.js:105-124 | accepted iff at least six characters |
| Login.HandleLogin | src/main/resources/static/js/login.js:166-190 | a request is sent iff both validators pass, with the trimmed login info |
| Login.LookupAgreesWithPage | src/main/resources/static/js/login.js:82-96 | for anything sent, the server's `'@'` test chooses the e-mail lookup exactly when the page saw an e-mail |
| Write.ValidateTitle | src/main/resources/static/js/write.js:82-103 | valid iff the trimmed title has 2 to 200 characters |
| Write.ValidateContent | src/main/resources/static/js/write.js:105-121 | valid iff the trimmed content has at least 10 characters, with no upper bound |
| Write.ValidateCategory | src/main/resources/static/js/write.js:123-134 | valid iff a category is selected |
| Write.SignedInUserNo | src/main/resources/static/js/write.js:4-22 | the stored user's number, missing when no user is stored or the number is absent or 0 |
| Write.HandleSubmit | src/main/resources/static/js/write.js:144-175 | all three validators run; nothing is sent unless all pass and a user is signed in; the post carries the trimmed title and content and the user's number |
| Write.PayloadTrimmed | src/main/resources/static/js/write.js:164-173 | the sent title and content are already trimmed and meet their bounds |
| BoardList.PageCountIsCeiling | src/main/resources/static/js/board.js:241 | the page count is the ceiling of count / perPage: enough pages, and one fewer would not be, and 0 only for no items |
| BoardList.EmptyTermMatchesAll | src/main/resources/static/js/board.js:305-313 | the empty term keeps every post, so the special case for it agrees with the filter |
| BoardList.FilterPostsSpec | src/main/resources/static/js/board.js:329-349 | the optional category filter followed by the optional search equals one filter by the combined rule |
| BoardList.BoardPage.constructor | src/main/resources/static/js/board.js:28-31 | page 1, no posts, two separate arrays |
| BoardList.BoardPage.TotalPages | src/main/resources/static/js/board.js:243 | the ceiling of the view's length over 10 |
| BoardList.BoardPage.PostsToShow | src/main/resources/static/js/board.js:188-190 | the view's positions (p-1)·10 up to p·10, clipped; empty iff the page is past the last |
| BoardList.BoardPage.LoadPosts | src/main/resources/static/js/board.js:91-144 | a reply replaces all posts, newest first, and shows a copy of them all; a failure empties the list |
| BoardList.BoardPage.RefreshPosts | src/main/resources/static/js/board.js:149-153 | back to page 1, then as `LoadPosts` |
| BoardList.PageNumbers | src/main/resources/static/js/board.js:261-267 | the loop emits the page numbers from start to end, in order |
| BoardList.ButtonWindow | src/main/resources/static/js/board.js:258-259 | the window max(1, p-2)..min(total, p+2) has at most 5 pages, all in 1..total, and contains p when p is a page |
| BoardList.BoardPage.PaginationButtons | src/main/resources/static/js/board.js:240-277 | nothing for one page; otherwise max(1, p-2) to min(total, p+2): at most 5 pages, all in range, including the current one |
| BoardList.BoardPage.Display | src/main/resources/static/js/board.js:187-235 | the current slice, and buttons only when the slice is not empty |
| BoardList.BoardPage.ChangePage | src/main/resources/static/js/board.js:282-297 | a page outside 1..total is ignored; otherwise it becomes current |
| BoardList.BoardPage.HandleSearch | src/main/resources/static/js/board.js:302-317 | page 1; the view is a new array of the posts matching the trimmed, lower-cased term in original order; an empty term restores all posts |
| BoardList.BoardPage.FilterPosts | src/main/resources/static/js/board.js:329-352 | page 1; the view is the posts of the selected category that match the term, an order-preserving subsequence of all posts; with no category and no term the view is the loaded array itself |
| BoardList.BoardPage.SortPosts | src/main/resources/static/js/board.js:357-374 | page 1; a permutation of the view, stably sorted newest, most liked or most viewed first; an unknown choice keeps the order; the loaded posts take the new order exactly when the view shares their array |
| BoardTable.Apply | src/main/java/com/prj/cursor/repository/BoardRepository.java:159-225 | increments add exactly 1, decrements subtract 1 only from a positive counter, the flag updates set `isActive`; no other column changes |
| BoardTable.IncrementThenDecrement | src/main/java/com/prj/cursor/repository/BoardRepository.java:168-179 | a like increment followed by a decrement restores the row |
| BoardTable.UpdateWhere | src/main/java/com/prj/cursor/repository/BoardRepository.java:160-224 | only the row with that `boardNo` changes; an unknown `boardNo` changes nothing; counters never go negative |
| BoardTable.CountByIsActive | src/main/java/com/prj/cursor/repository/BoardRepository.java:251 | the number of boards with that flag |
| BoardTable.CountByCategoryAndIsActive | src/main/java/com/prj/cursor/repository/BoardRepository.java:243 | the boards of that category with that flag, never more than `countByIsActive` |
| BoardTable.CountByAuthorAndIsActive | src/main/java/com/prj/cursor/repository/BoardRepository.java:234 | the boards of that author with that flag, never more than `countByIsActive` |
| BoardTable.CountPartition | src/main/java/com/prj/cursor/repository/BoardRepository.java:251 | active and inactive counts add up to all boards |
| BoardTable.CounterUpdateKeepsCounts | src/main/java/com/prj/cursor/repository/BoardRepository.java:159-197 | counter updates leave every count query unchanged |
| BoardTable.SetActiveMovesCount | src/main/java/com/prj/cursor/repository/BoardRepository.java:205-251 | flipping the flag of a board that had the other value moves exactly that board from one count to the other |
| BoardTable.PopularPage | src/main/java/com/prj/cursor/repository/BoardRepository.java:270-271 | a popular page holds rows with that flag, ordered by `viewCount` then `createdAt`, descending, and is the window at `start` of a descending sort of all rows with that flag |
| BoardTable.BoardRepository.constructor | src/main/java/com/prj/cursor/repository/BoardRepository.java:159-225 | a table with unique board numbers and non-negative counters |
| BoardTable.BoardRepository.IncrementViewCount | src/main/java/com/prj/cursor/repository/BoardRepository.java:159-161 | the table becomes `UpdateWhere` with a view increment and stays valid |
| BoardTable.BoardRepository.IncrementLikeCount | src/main/java/com/prj/cursor/repository/BoardRepository.java:168-170 | the same with a like increment |
| BoardTable.BoardRepository.DecrementLikeCount | src/main/java/com/prj/cursor/repository/BoardRepository.java:177-179 | the same with a floored like decrement |
| BoardTable.BoardRepository.IncrementCommentCount | src/main/java/com/prj/cursor/repository/BoardRepository.java:186-188 | the same with a comment increment |
| BoardTable.BoardRepository.DecrementCommentCount | src/main/java/com/prj/cursor/repository/BoardRepository.java:195-197 | the same with a floored comment decrement |
| BoardTable.BoardRepository.UpdateIsActive | src/main/java/com/prj/cursor/repository/BoardRepository.java:205-207 | the named board's `isActive` becomes the given value |
| BoardTable.BoardRepository.DeactivateBoard | src/main/java/com/prj/cursor/repository/BoardRepository.java:214-216 | the named board's `isActive` becomes false |
| BoardTable.BoardRepository.ActivateBoard | src/main/java/com/prj/cursor/repository/BoardRepository.java:223-225 | the named board's `isActive` becomes true |
| BoardTable.BoardRepository.FindPopularBoards | src/main/java/com/prj/cursor/repository/BoardRepository.java:270-271 | at most `size` boards with that flag, by `viewCount` descending then `createdAt` descending: page `page` of a descending sort of all boards with that flag |
| CommentTable.SetActiveWhere | src/main/java/com/prj/cursor/repository/CommentRepository.java:76-111 | the targeted comments get the flag; all other rows are unchanged |
| CommentTable.CountByBoardAndIsActive | src/main/java/com/prj/cursor/repository/CommentRepository.java:67 | the board's comments with that flag; 0 iff there are none |
| CommentTable.DeactivateAllLeavesNoneActive | src/main/java/com/prj/cursor/repository/CommentRepository.java:67-78 | after deactivating a board's comments its active count is 0 |
| CommentTable.BulkUpdateIsolated | src/main/java/com/prj/cursor/repository/CommentRepository.java:76-89 | a bulk update leaves every other board's counts unchanged |
| CommentTable.OldestFirstOfSorted | src/main/java/com/prj/cursor/repository/CommentRepository.java:56 | the model's sort by negated `createdAt` yields ascending `createdAt` |
| CommentTable.CommentRepository.constructor | src/main/java/com/prj/cursor/repository/CommentRepository.java:76-111 | a table of comments |
| CommentTable.CommentRepository.DeactivateAllByBoardNo | src/main/java/com/prj/cursor/repository/CommentRepository.java:76-78 | every comment of the board becomes inactive; others unchanged |
| CommentTable.CommentRepository.ActivateAllByBoardNo | src/main/java/com/prj/cursor/repository/CommentRepository.java:87-89 | every comment of the board becomes active; others unchanged |
| CommentTable.CommentRepository.DeactivateByCommentNo | src/main/java/com/prj/cursor/repository/CommentRepository.java:98-100 | only the named comment becomes inactive |
| CommentTable.CommentRepository.ActivateByCommentNo | src/main/java/com/prj/cursor/repository/CommentRepository.java:109-111 | only the named comment becomes active |
| CommentTable.CommentRepository.FindByBoardOrderByCreatedAtAsc | src/main/java/com/prj/cursor/repository/CommentRepository.java:56 | exactly the board's comments, each once, oldest first |
| CommentTable.CommentRepository.FindByBoardAndIsActiveOrderByCreatedAtAsc | src/main/java/com/prj/cursor/repository/CommentRepository.java:46 | page `page` of the board's comments with that flag, oldest first |
| NewsFeed.CreatePageable | src/main/java/com/prj/cursor/service/NewsService.java:139-154 | refused iff page < 0 or size < 1; `viewCount` descending iff the sort is "popular", otherwise `createdAt` descending |
| NewsFeed.Page | src/main/java/com/prj/cursor/repository/NewsRepository.java:22 | at most `size` items, all from the table and passing the condition, in the requested order: the window at `start` of a sort of all passing items |
| NewsFeed.FollowedCategories | src/main/java/com/prj/cursor/repository/UserFollowRepository.java:20-21 | distinct categories; a category is listed iff the user follows it |
| NewsFeed.IndexOfNews | src/main/java/com/prj/cursor/service/NewsService.java:77-78 | the position of the item with that id, or none has it |
| NewsFeed.ResaveFails | src/main/resources/static/js/news.js:302-330 | the settings dialog re-sends the categories the user already follows; such a selection passes the duplicate check but is already followed, so the as-written save fails where replacing would have left the table unchanged |
| NewsFeed.SavedFollows | src/main/java/com/prj/cursor/service/NewsService.java:90-104 | after a save the user follows exactly the given categories, and every other user's follows are as before |
| NewsFeed.NewsService.constructor | src/main/java/com/prj/cursor/entity/UserFollow.java:14 | unique news ids and unique (follower, category) pairs |
| NewsFeed.NewsService.GetNews | src/main/java/com/prj/cursor/service/NewsService.java:34-48 | refused iff the page request is; at most `size` items from the table; a non-empty category gives page `page` of that category in the request's order; otherwise page `page` of all news, newest first |
| NewsFeed.NewsService.GetUserFollows | src/main/java/com/prj/cursor/service/NewsService.java:109-113 | the distinct categories the user follows |
| NewsFeed.NewsService.GetUserFeed | src/main/java/com/prj/cursor/service/NewsService.java:53-69 | with no follows it equals `GetNews(page, size, None, "latest")`; with follows, page `page` of the news of followed categories, newest first |
| NewsFeed.NewsService.GetNewsById | src/main/java/com/prj/cursor/service/NewsService.java:74-85 | an unknown id fails and changes nothing; otherwise only that item's `viewCount` rises by exactly 1, and the updated item is returned |
| NewsFeed.NewsService.SaveUserFollows | src/main/java/com/prj/cursor/service/NewsService.java:90-104 | succeeds iff the categories hold no duplicate and none is already followed by the user; then the user's old follows are replaced by the given categories in order; otherwise the transaction rolls back and nothing changes |
| NewsFeed.NewsService.SaveUserFollowsFlushed | src/main/java/com/prj/cursor/service/NewsService.java:90-104 | the intended replace-all: succeeds iff the categories hold no duplicate, and then replaces the user's follows by them |

## Left out

- Controllers, WebSocket and Kafka consumers, security configuration, connectivity checks and seed data are request glue or infrastructure, not logic.
- `BoardService` only delegates to the repositories and calls repository methods that do not exist. `BoardService` is not part of this model.
- DOM writes, messages, modals, `fetch`, `localStorage` and canvas drawing are not modelled. The timer, SockJS/STOMP and the score submission from the game page are not modelled either.
- The availability checks' requests, the post list request and the stored user become parameters carrying their reply.
- The race between an availability reply and later typing is not modelled.
- The mapping of the post list reply to page posts (the excerpt and author fields) is not modelled. `BoardList.Post` is the mapped record.
- Concurrency is not modelled: concurrent submitters on one leaderboard, Kafka redelivery order, and concurrent transactions on the tables. Every operation runs alone.
- Redis scores are `Double`. All inputs are `Integer`, so scores are modelled as integers.
- Java `Long`/`Integer` overflow of counters, ids and scores is not modelled. Integers are unbounded.
- JavaScript and Java string lengths and indices are counted in characters, not UTF-16 code units. This concerns the JavaScript validators and `Masking.MaskEmail`, `Masking.MaskNickname` and `BoardView.ContentPreview`: a character outside the Basic Multilingual Plane counts once in the model and twice in the source. `toLowerCase` is modelled on ASCII letters only.
- BCrypt hashing is kept abstract as the `encode` / `matches` pair.
- Timestamps are opaque integers supplied by the caller.
- `GameRanking.CacheRankings`: the source reads `LocalDateTime.now()` once per entry (GameService.java:125), so entries built a moment apart may differ in `playedAt`. The model stamps every entry with one read time `now`.
- `Math.random` in `generateFood` becomes the given sequence of rolls.
- The character-count colour thresholds of `write.js` use floating point and only style the page.
- `UserService.Signup` checks the password and confirmation against each other but not against their bean-validation annotations. Jakarta validation is library behaviour.
- `NewsService.getPopularNews` and `searchNews` are not part of this model.
- `NewsFeed.FollowedCategories`: the order of `SELECT DISTINCT` results is unspecified in SQL. The contract states membership and distinctness, not order.
- `NewsFeed.NewsService.GetNews`: a `null` sort string throws in the source's `switch`. The controller always supplies a default, so the model takes a string.
- `BoardTable.BoardRepository.FindPopularBoards`: a page size below one makes `PageRequest.of` throw before the query runs, so the function requires `size >= 1`. `CommentTable.CommentRepository.FindByBoardAndIsActiveOrderByCreatedAtAsc` requires the same for the same reason.
- Ties under an `ORDER BY` are resolved by table order. The database may order them differently.

## Findings

| source | as written | input that shows it | evidently intended | confidence | as-written member | corrected member |
|---|---|---|---|---|---|---|
| src/main/java/com/prj/cursor/service/NewsService.java:92-99 | the derived `deleteByFollowerId` only marks the user's rows for removal until the flush, while each new row is inserted at once, so the `(followerId, category)` constraint sees old and new rows together | user 1 follows `IT`; the dialog sends `["IT"]` (or `["IT", "경제"]`); the insert of `(1, "IT")` breaks the constraint and the save is rolled back | the user's follows are replaced by the given categories | not executed; rests on Hibernate's flush order | NewsFeed.NewsService.SaveUserFollows, NewsFeed.ResaveFails | NewsFeed.NewsService.SaveUserFollowsFlushed |
