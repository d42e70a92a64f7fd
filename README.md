# Social server core, modelled in Dafny

This project models the server-side domain logic of a small social
network built on Express and Mongoose. Users follow one another, block
and report users, bookmark posts and set their privacy. Posts, polls and
scheduled posts are moderated by keyword and carry hashtags. Stories
expire after a day. Notifications can be read and deleted. Groups and
conversations hold private and group messages.

The model has three layers.

- **Records and schemas.** `UserModel`, `PostModel`, `MessageModel` and
  `ConversationModel` are datatypes for the Mongoose documents. Each
  schema's `trim`, `lowercase`, `required`, `minlength`/`maxlength` and
  `enum` rules are written out, as are its pre-validate hook. A "create
  and save" becomes a function returning `Saved(record)` or
  `Invalid(error)`.
- **The database.** `Db.Store` is a class with one `seq` field per
  collection, in natural (insertion) order. It also has an id counter
  `nextId`, which stands in for ObjectId generation. Its ghost `Valid()`
  says three things:
  - identities are unique and below the counter;
  - every stored document passed its schema;
  - every conversation's `lastMessage` is a stored message.
- **The handlers.** Each route handler that changes data is a `method` on
  a `Store`. Its `modifies` clause names exactly the collections the
  handler writes. Its `ensures` ties the new state to a pure step
  function of the old state (`BlockStep`, `VoteStep`, `ReadAll`, …).
  Read-only handlers are pure functions. The lemmas beside the step
  functions state what the route promises: round trips, idempotence,
  preserved invariants and error precedence.

The helper modules are:

- `Common`: identities, time, `Option`/`Result`, and the HTTP error kinds.
  `BadRequest` is 400, `NotFound` 404, `Forbidden` 403. `ServerError` is
  500, which covers a thrown validation error or a `TypeError`.
- `Text`: JavaScript's `trim`, ASCII `toLowerCase`, `includes`, and `length` in UTF-16 code units.
- `Lists`:
  - `filter`, `$addToSet`, `new Set`;
  - a descending sort for `sort({ field: -1 })`. MongoDB does not fix the order of equal keys, so the model picks one admissible order, the stable one;
  - `limit`.

Clock readings (`new Date()`, `Date.now()`) are passed in as the
parameter `now`. The authenticated user's id comes from the auth
middleware and is a parameter, as is the uploaded file's name and MIME
type.

Behaviours that are modelled as the code is written, where the route's
wording suggests something else:

- **Self-chat.** A private conversation opened with oneself runs the
  query `$all: [u, u], $size: 2`. That query finds any private chat of
  the user (`ConversationsRoutes.SelfChatFindsAnyChat`).
- **Poll without text.** A poll without text content is saved with
  content `''`. That content fails the `required` validator, so the
  request ends in a server error
  (`PostsRoutes.PollWithoutContentFails`).
- **Story expiry boundary.** At the exact instant a story expires, it can
  still be viewed but is no longer listed
  (`StoriesRoutes.ExpiringStoryViewableButNotListed`).
- **Keyword moderation.** Keywords are matched as substrings, so
  "Whatever" is rejected because it contains "hate"
  (`ModerationService.WhateverIsRejected`).
- **Hashtag lookup.** Stored tags are lower-case. The lookup trims the tag
  through the schema's `trim` setter but does not lower it, so a tag with
  an upper-case letter finds nothing
  (`HashtagsRoutes.MixedCaseTagFindsNothing`).
- **Privacy validation.** `PUT /privacy` validates with `runValidators`
  before it looks the user up. A value outside an enum is therefore a
  server error even when the user does not exist.
- **Group members' lists.** Creating a group conversation stores a Group
  document, but it does not add the group to its members' `groups`
  lists. Only `POST /groups` does that.

## Model

| member | source | states |
|---|---|---|
| Text.Trim | server/models/Message.js:20 | the result starts and ends with a non-whitespace character (or is empty) and is never longer than the input |
| Text.TrimBlank | server/models/Message.js:20 | trimming gives the empty string exactly when the input is all whitespace |
| Text.TrimKeepsMiddle | server/models/Message.js:20 | the result is a slice of the input with only whitespace before and after it |
| Text.Utf16Length | server/models/Message.js:21 | the length JavaScript reports lies between the number of code points and twice that |
| Text.Utf16LengthOfAstral | server/models/User.js:10 | a string of characters outside the Basic Multilingual Plane has a length of twice its code points |
| Text.TrimIdempotent | server/models/Post.js:12 | trimming a trimmed string changes nothing, so the `trim` setter is stable |
| Text.ToLower | server/utils/hashtagExtractor.js:14 | same length; each character is lowered, and only ASCII upper-case letters change |
| Text.ContainsIff | server/services/moderationService.js:17-19 | `includes` holds exactly when the word occurs at some position |
| Lists.RemoveAll | server/routes/users.js:97-104 | every copy of the removed id is gone, and every other entry keeps its multiplicity |
| Lists.AddToSet | server/routes/groups.js:21-22 | the id is present afterwards, nothing else is added, a duplicate-free list stays so, and an existing id leaves the list unchanged |
| Lists.PushThenRemove | server/routes/safety.js:38-73 | pushing an absent id and then filtering it out restores the list |
| Lists.Dedup | server/utils/hashtagExtractor.js:17 | the same elements with no duplicates |
| Lists.DedupKeepsFirstOccurrenceOrder | server/utils/hashtagExtractor.js:17 | `new Set` keeps entries in order of first occurrence |
| Lists.Filter | server/routes/conversations.js:16-18 | membership is exactly "in the input and passes the test"; multiplicities are kept |
| Lists.FilterAppend | server/routes/conversations.js:16-18 | filtering a concatenation is the concatenation of the filtered parts, so the input order is kept |
| Lists.Find | server/routes/users.js:83-89 | `findById`: the index found carries the id and no earlier record does; nothing is found exactly when no record carries the id |
| Lists.FindUnique | server/routes/groups.js:64 | with unique ids, the lookup of a record's id returns that record |
| Lists.SortDesc | server/routes/notifications.js:16 | a permutation of the input, in non-increasing key order |
| Lists.SortedFilter | server/routes/users.js:22 | `find(filter).sort({ key: -1 })`: sorted, with exactly the matching records and their multiplicities |
| Lists.TopKSpec | server/routes/notifications.js:16-17 | `sort().limit(k)`: at most k records, sorted, drawn from the input, and all of them when there are at most k |
| Lists.TopKLeftOut | server/routes/hashtags.js:17-18 | a record left out by the limit has a key no larger than any record kept |
| Lists.TopKAll | server/routes/notifications.js:17 | with at most k records, every one is kept |
| Db.Store.InsertPost | server/routes/posts.js:52 | `save()` of a new post appends it under the next id and keeps the store valid |
| Db.Store.InsertMessage | server/routes/conversations.js:208 | a new message is appended under the next id; every conversation's last message is still stored |
| Db.Store.InsertGroup | server/routes/groups.js:33 | a new group is appended under the next id |
| Db.Store.InsertConversation | server/routes/conversations.js:66-72 | a new conversation with no last message is appended under the next id |
| Db.Store.UpdateConversation | server/routes/conversations.js:211-212 | replacing a conversation by a valid one with the same id and a stored last message keeps the store valid |
| Db.MessagesOkAppend | server/models/Message.js:40-48 | appending a valid message with a fresh id keeps the messages and the conversations' references well-formed |
| UserModel.ParseVisibility | server/models/User.js:54-63 | accepted exactly for "public", "followers" and "private" |
| UserModel.ParseContactPermission | server/models/User.js:64-68 | accepted exactly for "everyone", "followers" and "none" |
| UserModel.NormalizeEmailShape | server/models/User.js:12-18 | a stored e-mail is trimmed and lower-case |
| UserModel.NormalizeEmailIdempotent | server/models/User.js:16-17 | normalising an e-mail twice is normalising it once |
| UserModel.NewUser | server/models/User.js:4-69 | a user saves exactly when the username trims to 3..30 UTF-16 code units, the e-mail is non-empty after normalising, the password has at least 6 code units and the bio at most 500; the saved user has the trimmed, normalised fields, empty lists and the default privacy |
| UserModel.AstralUsernameTooLong | server/models/User.js:10 | a 16-character username made only of characters outside the Basic Multilingual Plane is too long, since it counts 32 code units |
| PostModel.NewComment | server/models/Post.js:22-37 | a comment saves exactly when it has a user and a non-blank content; the content is trimmed and the timestamp defaults to now |
| PostModel.TrimPoll | server/models/Post.js:65-83 | the question and each option text are trimmed; votes and expiry are kept |
| PostModel.BuildPost | server/models/Post.js:4-64 | the built post has the trimmed content and hashtags, no likes or comments, `pending` moderation, and is published unless told otherwise |
| PostModel.BuildPostSavesIffContent | server/models/Post.js:9-13 | a new post saves exactly when its content is not blank |
| MessageModel.ParseMessageType | server/models/Message.js:23-27 | accepted exactly for "text", "image" and "file" |
| MessageModel.CheckTarget | server/models/Message.js:40-48 | the hook passes exactly when one of recipient and group is set, and names which rule failed |
| MessageModel.NewMessage | server/models/Message.js:4-48 | a message saves exactly when it has a sender, exactly one target, a content of 1..1000 UTF-16 code units after trimming and a known type; the record is unread, with the trimmed content and the type defaulting to text |
| ConversationModel.CheckGroup | server/models/Conversation.js:25-33 | the hook passes exactly when `isGroup` agrees with the presence of a group, and names which rule failed |
| ConversationModel.NewConversation | server/models/Conversation.js:4-33 | a conversation saves exactly when it is a group conversation with a group, or a private one without; it starts with no last message |
| ConversationModel.SaveConversation | server/models/Conversation.js:21-33 | a re-save passes the hook exactly for a valid conversation and refreshes `updatedAt` |
| HashtagExtractor.WordRun | server/utils/hashtagExtractor.js:6 | `\w+`: the longest prefix made of word characters |
| HashtagExtractor.MatchesComplete | server/utils/hashtagExtractor.js:6-9 | every `#` followed by a word character yields its word as a match |
| HashtagExtractor.MatchesSound | server/utils/hashtagExtractor.js:6-9 | every match is the word after some `#` |
| HashtagExtractor.ExtractHashtags | server/utils/hashtagExtractor.js:2-18 | every tag is a non-empty lower-case word and no tag repeats |
| HashtagExtractor.ExtractHashtagsExact | server/utils/hashtagExtractor.js:2-18 | the tags are exactly the lowered words that follow a `#` |
| HashtagExtractor.NoHashtagsIffNoTag | server/utils/hashtagExtractor.js:3-11 | no tags exactly when no `#` is followed by a word character |
| HashtagExtractor.ExtractHashtagsFirstOccurrenceOrder | server/utils/hashtagExtractor.js:14-17 | tags come in order of their first occurrence in the text |
| ModerationService.AnyKeywordIn | server/services/moderationService.js:17-19 | true exactly when some keyword occurs somewhere in the text |
| ModerationService.ModerateContent | server/services/moderationService.js:4-32 | rejected, with the fixed reason, exactly when the lowered content contains one of the four keywords; approved with no reason otherwise |
| ModerationService.WhateverIsRejected | server/services/moderationService.js:9-19 | "Whatever" is rejected, because it contains "hate" |
| ModerationService.GoodDayIsApproved | server/services/moderationService.js:9-19 | "good day" is approved |
| ModerationService.ModeratePost | server/services/moderationService.js:35-60 | fails exactly when the post cannot be saved; otherwise it sets status and reason from the verdict, unpublishes a rejected post, and changes nothing else |
| ModerationService.ModeratePostIdempotent | server/services/moderationService.js:35-60 | moderating a moderated post again gives the same post and verdict |
| ScheduledPostsPublisher.DueIds | server/utils/scheduledPostsPublisher.js:9-16 | the ids are exactly those of the unpublished posts whose time has come |
| ScheduledPostsPublisher.Swept | server/utils/scheduledPostsPublisher.js:18-21 | no post is due afterwards; a post is published exactly when it was published or due, and nothing else changes |
| ScheduledPostsPublisher.DueIdsExact | server/utils/scheduledPostsPublisher.js:9-16 | with unique ids, a post's id is listed exactly when the post is due |
| ScheduledPostsPublisher.FindDue | server/utils/scheduledPostsPublisher.js:9-16 | the loop collects exactly the due ids |
| ScheduledPostsPublisher.PublishFound | server/utils/scheduledPostsPublisher.js:18-21 | the in-place `updateMany` over the found ids leaves the posts swept |
| ScheduledPostsPublisher.PublishScheduledPosts | server/utils/scheduledPostsPublisher.js:4-29 | the posts are swept, the store stays valid, and the count is the number of due posts |
| ScheduledPostsPublisher.SweptKeepsPostsOk | server/utils/scheduledPostsPublisher.js:18-21 | the sweep keeps every stored post valid |
| ScheduledPostsPublisher.SweepPublishesDue | server/utils/scheduledPostsPublisher.js:18-21 | a due post is published and otherwise unchanged |
| ScheduledPostsPublisher.SweepLeavesOthers | server/utils/scheduledPostsPublisher.js:9-12 | a post that is not due is untouched |
| ScheduledPostsPublisher.SweepIdempotent | server/utils/scheduledPostsPublisher.js:4-29 | a second run at the same time changes nothing |
| ScheduledPostsPublisher.SweepNothingDue | server/utils/scheduledPostsPublisher.js:14 | with nothing due the posts stay as they are |
| ScheduledPostsPublisher.SweepIgnoresModeration | server/utils/scheduledPostsPublisher.js:9-21 | a due post rejected by moderation is still published |
| PostsRoutes.TagsAreTrimmed | server/models/Post.js:46-49 | extracted tags pass the `trim` setter unchanged |
| PostsRoutes.CreatePostStep | server/routes/posts.js:13-67 | succeeds exactly for a non-blank content; the post carries the trimmed content, upload URL, hashtags of the raw text, a schedule only if it lies in the future, the moderation verdict, and is published exactly when it is not scheduled and is approved; the reply names the right message |
| PostsRoutes.RejectedPostUnpublished | server/routes/posts.js:50 | a rejected post is stored unpublished and marked rejected |
| PostsRoutes.CreatedPostDueAtItsTime | server/routes/posts.js:30-39 | a scheduled post becomes due exactly at its time; an unscheduled post is never due |
| PostsRoutes.CreatePost | server/routes/posts.js:13-67 | the handler stores the step's post under the next id, or stores nothing on error |
| PostsRoutes.ValidOptions | server/routes/posts.js:80 | exactly the options with a non-blank text, each as many times as it was supplied |
| PostsRoutes.ValidOptionsInOrder | server/routes/posts.js:80 | the kept options stay in the order they were supplied |
| PostsRoutes.FormatOptions | server/routes/posts.js:86-89 | each option trimmed with no votes, in order |
| PostsRoutes.FormattedPoll | server/routes/posts.js:108-112 | the formatted poll is already trimmed |
| PostsRoutes.CreatePollStep | server/routes/posts.js:70-141 | a malformed poll or fewer than two usable options is a 400; otherwise a missing or blank content is a server error, since the `required` validator fails on save, and a non-blank content succeeds |
| PostsRoutes.CreatedPollShape | server/routes/posts.js:86-112 | the stored poll has the trimmed question, the usable options trimmed with no votes, and the given expiry |
| PostsRoutes.CreatedPollSchedule | server/routes/posts.js:101-133 | scheduling, moderation, publication and the reply message follow the same rules as for a post |
| PostsRoutes.PollWithoutContentFails | server/routes/posts.js:107 | a valid poll with no or empty text content ends in a server error |
| PostsRoutes.CreatePoll | server/routes/posts.js:70-141 | the handler stores the step's poll post under the next id, or stores nothing on error |
| PostsRoutes.FreshPollOneVoteEach | server/routes/posts.js:88 | a new poll has at most one vote per user |
| PostsRoutes.AddVote | server/routes/posts.js:181 | only the chosen option gains the voter, at its end |
| PostsRoutes.VoteStep | server/routes/posts.js:144-197 | 404 for a missing post; every other refusal is a 400; it succeeds exactly when the post has a poll that has not expired, the index is in range and the user has not voted; the vote is appended to the chosen option and nothing else changes |
| PostsRoutes.VoteKeepsOneVoteEach | server/routes/posts.js:172-181 | voting keeps "each user voted at most once across the options" |
| PostsRoutes.SecondVoteRejected | server/routes/posts.js:176-178 | a second vote by the same user, on any option, is rejected |
| PostsRoutes.Vote | server/routes/posts.js:144-197 | the handler applies the step, or changes nothing on error |
| UsersRoutes.PostsOf | server/routes/users.js:22 | the author's posts, newest first, each with its multiplicity |
| UsersRoutes.GetProfile | server/routes/users.js:9-35 | 404 exactly when no user has the trimmed name, since the query runs the `username` path's `trim` setter; otherwise the user without password and exactly their posts, newest first |
| UsersRoutes.GetProfileIgnoresPadding | server/routes/users.js:14 | a name with surrounding whitespace gives the same answer as the trimmed name |
| UsersRoutes.ProfileUpdate | server/routes/users.js:38-67 | a bio over 500 UTF-16 code units is a server error even for a missing user; otherwise 404 for a missing user, or the supplied fields are set and nothing else changes |
| UsersRoutes.EmptyProfileUpdateChangesNothing | server/routes/users.js:44-52 | an update with no fields leaves the users as they were |
| UsersRoutes.UpdateProfile | server/routes/users.js:38-67 | the handler applies the step, or changes nothing on error |
| UsersRoutes.FollowToggle | server/routes/users.js:70-124 | 400 for oneself, 404 for a missing user; otherwise the follow is removed from both sides if the user followed, or added to both sides if not; only those two users change |
| UsersRoutes.FollowToggleKeepsAgreement | server/routes/users.js:93-113 | when "a follows b" agrees with "b lists a as follower" before the toggle, it still agrees after |
| UsersRoutes.FollowToggleTwiceRestoresMembership | server/routes/users.js:93-108 | toggling twice restores whether the user follows |
| UsersRoutes.FollowThenUnfollowRestores | server/routes/users.js:93-108 | following and then unfollowing restores the users exactly |
| UsersRoutes.ToggleFollow | server/routes/users.js:70-124 | the handler applies the step, or changes nothing on error |
| SafetyRoutes.BlockStep | server/routes/safety.js:8-51 | 400 for oneself or an already blocked user, 404 for a missing user; otherwise the target is appended to the blocked list and nothing else changes |
| SafetyRoutes.UnblockStep | server/routes/safety.js:54-88 | 404 for a missing user, 400 when the target is not blocked; otherwise every copy of the target leaves the blocked list |
| SafetyRoutes.BlockTwiceRejected | server/routes/safety.js:31-34 | blocking the same user twice is rejected |
| SafetyRoutes.BlockThenUnblockRestores | server/routes/safety.js:38-73 | blocking and then unblocking restores the users exactly |
| SafetyRoutes.Block | server/routes/safety.js:8-51 | the handler applies the step, or changes nothing on error |
| SafetyRoutes.Unblock | server/routes/safety.js:54-88 | the handler applies the step, or changes nothing on error |
| SafetyRoutes.Report | server/routes/safety.js:91-125 | succeeds exactly for another, existing user; 400 for oneself, else 404 |
| BookmarksRoutes.AddBookmarkStep | server/routes/bookmarks.js:9-47 | 404 for a missing post and then a missing user, 400 for a post already bookmarked; otherwise the post is appended and nothing else changes |
| BookmarksRoutes.RemoveBookmarkStep | server/routes/bookmarks.js:50-84 | 404 for a missing user, 400 when not bookmarked; otherwise every copy of the post leaves the bookmarks |
| BookmarksRoutes.AddThenRemoveRestores | server/routes/bookmarks.js:34-69 | adding and then removing a bookmark restores the users exactly |
| BookmarksRoutes.Populate | server/routes/bookmarks.js:92 | `populate` yields stored posts whose ids are bookmarked, skipping deleted posts |
| BookmarksRoutes.PopulateAllPresent | server/routes/bookmarks.js:92 | when every bookmarked post exists, the list has one post per bookmark, in order |
| BookmarksRoutes.PopulateComplete | server/routes/bookmarks.js:92 | every stored, bookmarked post is listed |
| BookmarksRoutes.ListBookmarks | server/routes/bookmarks.js:87-112 | 404 exactly for a missing user; otherwise the populated bookmarks |
| BookmarksRoutes.AddBookmark | server/routes/bookmarks.js:9-47 | the handler applies the step, or changes nothing on error |
| BookmarksRoutes.RemoveBookmark | server/routes/bookmarks.js:50-84 | the handler applies the step, or changes nothing on error |
| StoriesRoutes.MediaTypeOf | server/routes/stories.js:21 | video exactly when the MIME type starts with "video", image otherwise |
| StoriesRoutes.CreateStory | server/routes/stories.js:10-48 | 400 without a file; otherwise a story expiring a day later is stored under the next id |
| StoriesRoutes.ListStories | server/routes/stories.js:51-83 | 404 for a missing user; otherwise exactly the unexpired stories by the user or those they follow, newest first |
| StoriesRoutes.NewStoryListedUntilExpiry | server/routes/stories.js:65-70 | one's own new story is listed until it expires |
| StoriesRoutes.ViewStep | server/routes/stories.js:86-122 | 404 for a missing story, 400 once it has expired; otherwise the viewer is among the views, which gain nothing else, and a repeat view changes nothing |
| StoriesRoutes.ViewTwiceSameAsOnce | server/routes/stories.js:103-109 | viewing twice is viewing once |
| StoriesRoutes.ExpiringStoryViewableButNotListed | server/routes/stories.js:70-99 | at its expiry instant a story can be viewed but is not listed |
| StoriesRoutes.ViewStory | server/routes/stories.js:86-122 | the handler applies the step, or changes nothing on error |
| StoriesRoutes.DeleteStep | server/routes/stories.js:125-146 | succeeds exactly when the user authored a story with that id; one story is removed |
| StoriesRoutes.DeleteRemovesExactly | server/routes/stories.js:131-137 | with unique ids, exactly the story with that id is gone |
| StoriesRoutes.DeleteStory | server/routes/stories.js:125-146 | the handler applies the step, or changes nothing on error |
| NotificationsRoutes.Mine | server/routes/notifications.js:15 | exactly the user's notifications |
| NotificationsRoutes.ListNotifications | server/routes/notifications.js:8-27 | at most 50 of the user's notifications, newest first, each stored for that user |
| NotificationsRoutes.ListNotificationsNewest | server/routes/notifications.js:16-17 | the list has min(50, the user's count) entries, any of the user's notifications left out is no newer than every listed one, and with at most 50 all are listed |
| NotificationsRoutes.MarkReadStep | server/routes/notifications.js:30-58 | succeeds exactly when the user has a notification with that id; that one is marked read at now |
| NotificationsRoutes.MarkRead | server/routes/notifications.js:30-58 | the handler applies the step and returns the read notification, or changes nothing on error |
| NotificationsRoutes.ReadAll | server/routes/notifications.js:61-78 | each of the user's unread notifications becomes read at the current time, so none is unread afterwards; read ones and other users' ones are untouched |
| NotificationsRoutes.ReadAllIdempotent | server/routes/notifications.js:66 | a second read-all, at any time, changes nothing |
| NotificationsRoutes.MarkAllRead | server/routes/notifications.js:61-78 | the in-place update leaves the notifications as `ReadAll` says |
| NotificationsRoutes.DeleteStep | server/routes/notifications.js:81-106 | succeeds exactly when the user has a notification with that id; one notification is removed |
| NotificationsRoutes.DeleteRemovesExactly | server/routes/notifications.js:87-97 | with unique ids, exactly the notification with that id is gone |
| NotificationsRoutes.DeleteNotification | server/routes/notifications.js:81-106 | the handler applies the step, or changes nothing on error |
| GroupsRoutes.MemberIds | server/routes/groups.js:21-22 | the supplied members unchanged when they include the creator, otherwise the supplied members with the creator appended; just the creator when no array is sent |
| GroupsRoutes.AddGroupToMembers | server/routes/groups.js:42-44 | each member gains the group in its list once; other users are untouched |
| GroupsRoutes.AddGroupToMembersSets | server/routes/groups.js:42-44 | a member's list holds the group afterwards, gains nothing else, and stays duplicate-free |
| GroupsRoutes.AddGroupToMembersIdempotent | server/routes/groups.js:42-44 | `$addToSet` twice is `$addToSet` once |
| GroupsRoutes.AddGroupKeepsUsersOk | server/routes/groups.js:42-44 | the update keeps every stored user valid |
| GroupsRoutes.AddGroupToUsers | server/routes/groups.js:42-44 | the loop over the users leaves them as `AddGroupToMembers` says |
| GroupsRoutes.CreateGroup | server/routes/groups.js:9-55 | 400 for a missing or blank name; otherwise the group with the trimmed name and the members is stored under the next id, which advances by one, and the members gain it; an error leaves the id counter alone |
| GroupsRoutes.SaveGroup | server/routes/groups.js:33-44 | the group is appended and its members gain it |
| GroupsRoutes.CreatedGroupShape | server/routes/groups.js:21-27 | a created group has a non-empty trimmed name and includes its creator |
| GroupsRoutes.FetchGroup | server/routes/groups.js:58-89 | 404 for a missing group, 403 for a non-member; otherwise the group |
| GroupsRoutes.CreatorCanFetch | server/routes/groups.js:21-22 | the creator can always fetch a created group |
| PrivacyRoutes.GetPrivacy | server/routes/privacy.js:8-27 | 404 exactly for a missing user; otherwise that user's settings |
| PrivacyRoutes.Apply | server/routes/privacy.js:36-39 | each supplied setting is set to its parsed value and the others are kept |
| PrivacyRoutes.UpdateStep | server/routes/privacy.js:30-60 | a value outside an enum is a server error; otherwise 404 for a missing user, or only the user's settings change |
| PrivacyRoutes.EmptyUpdateChangesNothing | server/routes/privacy.js:36-42 | an update with no fields changes nothing |
| PrivacyRoutes.GetAfterUpdate | server/routes/privacy.js:8-60 | reading after an update returns the updated settings |
| PrivacyRoutes.UpdateIdempotent | server/routes/privacy.js:30-60 | the same update twice is the update once |
| PrivacyRoutes.UpdatePrivacy | server/routes/privacy.js:30-60 | the handler applies the step, or changes nothing on error |
| HashtagsRoutes.Window | server/routes/hashtags.js:14 | exactly the posts of the last seven days that carry a tag |
| HashtagsRoutes.Unwind | server/routes/hashtags.js:15 | exactly the tags of those posts |
| HashtagsRoutes.UnwindCounts | server/routes/hashtags.js:15-16 | the number of unwound entries of a tag is the number of its uses |
| HashtagsRoutes.Groups | server/routes/hashtags.js:16 | one entry per distinct tag, with its number of uses |
| HashtagsRoutes.GroupsExact | server/routes/hashtags.js:16 | each entry's count is exact, every used tag has an entry, and no entry repeats |
| HashtagsRoutes.Trending | server/routes/hashtags.js:8-32 | at most ten entries, by non-increasing count |
| HashtagsRoutes.TrendingLength | server/routes/hashtags.js:17-18 | ten entries when more than ten distinct tags are used in the window, otherwise one per distinct tag |
| HashtagsRoutes.TrendingCounts | server/routes/hashtags.js:13-19 | each listed count is the tag's positive number of uses in the window, and no tag is listed twice |
| HashtagsRoutes.TrendingLeftOutUsedLess | server/routes/hashtags.js:17-18 | a tag left out is used no more often than any listed tag |
| HashtagsRoutes.TrendingListsAllWhenFew | server/routes/hashtags.js:18 | with at most ten distinct tags, all are listed with their counts |
| HashtagsRoutes.Tagged | server/routes/hashtags.js:40 | exactly the posts whose hashtags hold the trimmed tag, since the query runs the `hashtags` elements' `trim` setter, each as often as it is stored |
| HashtagsRoutes.TagPosts | server/routes/hashtags.js:35-54 | at most 50 posts carrying the tag, newest first |
| HashtagsRoutes.TagPostsNewest | server/routes/hashtags.js:40-43 | the listing has min(50, tagged) posts, no tagged post left out is newer than a listed one, and with at most 50 tagged posts every one is listed as often as it is stored |
| HashtagsRoutes.MixedCaseTagFindsNothing | server/routes/hashtags.js:40 | a tag whose trimmed form has an upper-case letter finds no post |
| HashtagsRoutes.TagPostsIgnoresPadding | server/routes/hashtags.js:40 | a tag with surrounding whitespace lists the same posts as the trimmed tag |
| ConversationsRoutes.ListConversations | server/routes/conversations.js:11-33 | exactly the user's conversations with their multiplicities, most recently updated first |
| ConversationsRoutes.ExistingChat | server/routes/conversations.js:93-96 | finds a private two-person chat holding both users, and finds nothing exactly when none exists |
| ConversationsRoutes.ExistingChatSymmetric | server/routes/conversations.js:93-96 | the lookup finds the same chat whichever side opens it |
| ConversationsRoutes.NewChatFoundByOtherSide | server/routes/conversations.js:110-115 | a chat created by one side is found when the other side opens it |
| ConversationsRoutes.SelfChatFindsAnyChat | server/routes/conversations.js:90-96 | opening a chat with oneself finds any private chat one takes part in |
| ConversationsRoutes.CreateConversation | server/routes/conversations.js:36-131 | 400 exactly when the group or private request check fails, with nothing stored; a group request stores the group and its conversation with the creator added; a private request returns the existing chat or stores a new one; the id counter advances by one per stored record |
| ConversationsRoutes.StartGroupConversation | server/routes/conversations.js:52-72 | the group and then its conversation are stored under the next two ids |
| ConversationsRoutes.OpenPrivateChat | server/routes/conversations.js:90-126 | the existing chat is returned with nothing stored, or a new two-person chat is stored |
| ConversationsRoutes.Lookup | server/routes/conversations.js:140-151 | 404 for a missing conversation, 403 for a non-participant; otherwise the conversation |
| ConversationsRoutes.SortedMatches | server/routes/conversations.js:161 | exactly the matching messages, oldest first |
| ConversationsRoutes.FetchMessages | server/routes/conversations.js:134-171 | as written: the lookup's errors, else every message addressed to the conversation or whose group equals the conversation's group, each as often as it is stored, oldest first |
| ConversationsRoutes.FetchReturnsAllPrivateMessages | server/routes/conversations.js:154-158 | for a private conversation, every message without a group is returned, whichever chat it belongs to |
| ConversationsRoutes.FetchLeaksOtherChat | server/routes/conversations.js:154-158 | a participant of one private chat receives a message of another chat |
| ConversationsRoutes.FetchMessagesIntended | server/routes/conversations.js:154-158 | the lookup's errors, else exactly the messages belonging to the conversation, each as often as it is stored, oldest first |
| ConversationsRoutes.MessageForSaved | server/routes/conversations.js:200-206 | a message with non-blank content saves exactly when its trimmed content fits in 1000 UTF-16 code units and its type is missing, empty or known; the record has the sender, the content and the time |
| ConversationsRoutes.MessageForBelongs | server/routes/conversations.js:200-206 | a saved message belongs to its conversation and to no other conversation |
| ConversationsRoutes.MessageForMatchesOtherChats | server/routes/conversations.js:200-206 | as written, a private message matches the fetch filter of every other private chat |
| ConversationsRoutes.Deliver | server/routes/conversations.js:208-212 | the message is appended, the id counter advances, and only the target conversation changes: its last message and `updatedAt` |
| ConversationsRoutes.SendMessage | server/routes/conversations.js:174-228 | 400 for a blank content, then the lookup's errors, then a server error for an invalid message; otherwise the message is stored and becomes the conversation's last message, with `updatedAt` set to now, and the id counter advances by one |

## Left out

- Link previews (`extractUrls`, `getLinkPreview`) fetch a page over the network. The `linkPreview` field is not modelled.
- A post's `location` needs `parseFloat` and floating-point coordinates. It is not modelled.
- PostModel.BuildPost: the Post schema's `repost` and `repostComment` fields (server/models/Post.js:38-45) are not modelled. No core route sets them and neither has a validator.
- The `ai` and `search` routes, `server.js` and the client are outside the modelled core.
- The cron registration of the publisher (server/utils/scheduledPostsPublisher.js:31-36) is a timer. `PublishScheduledPosts` models one run at a given time.
- Concurrency is not modelled. Each handler runs to completion on its own. Multi-step saves (a follow's two saves, a group followed by its members' update) are atomic here.
- `populate` of author fields, the response bodies' wording and logging are not modelled. Only the outcome kind, the returned record and the stored state are.
- Authentication and upload middleware are not modelled. The user id, file name and MIME type are parameters.
- An id string that is not a valid ObjectId makes Mongoose throw a cast error, a 500. Ids here are naturals, so that path is not modelled.
- A date string that does not parse (`new Date(x)` is NaN) is not modelled. Times are integers of milliseconds.
- `optionIndex` arrives as JSON. It is modelled as an optional integer, so loose comparisons of strings with numbers are not.
- `toLowerCase` and the `\w` class are modelled on ASCII only. Non-ASCII case mapping is not modelled.
- Strings are sequences of code points. Mongoose's `minlength` and `maxlength` compare JavaScript's length, which `Text.Utf16Length` computes from them. A lone surrogate cannot be written in this model.
- Story.js, Notification.js and Group.js are not part of this model. The Story, Notification and Group records take the fields the routes use.
- The report route only logs, and logging is not modelled. `SafetyRoutes.Report` models its outcome and stores nothing.
- A `null` value sent for a profile or privacy field is not modelled. An absent field is `None`.
- The Post schema's `comments` are built with `PostModel.NewComment`, but no core route adds one. Likes are only stored, never changed.
- Lists.TopKSpec: states the length, order and multiset inclusion of `sort().limit()`, not which of several records with equal keys is kept. Mongo does not fix that order either.
- HashtagsRoutes.Trending: `$group` returns groups in an unspecified order. The model takes first use in the window, so ties in count are ordered as that choice makes them.
- NotificationsRoutes.ListNotifications: its own contract states only the bound, the order and the source. The exact length and which notifications are listed are in `ListNotificationsNewest`.
- Ids are naturals drawn from the store's counter `nextId`. No other property of ObjectIds, such as their timestamp, is modelled.

## Findings

| source | as written | input that shows it | evidently intended | confidence | as-written member | corrected member |
|---|---|---|---|---|---|---|
| server/routes/conversations.js:154-158 | the message filter is `recipient: id` or `group: conversation.group`. A private conversation has no group, so the second clause matches every message without a group, including those of every other private chat | private chats 0 = [1, 2] and 1 = [3, 4]; user 3 sends "hi" into chat 1; user 1 fetches chat 0 and receives it | a private conversation returns only the messages addressed to it; the group clause applies only to group conversations | high (not executed) | ConversationsRoutes.FetchMessages | ConversationsRoutes.FetchMessagesIntended |
