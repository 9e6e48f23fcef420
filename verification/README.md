# listyouridea: featured-week booking, post submission and page logic in Dafny

This project models the core of *listyouridea*, a product-showcase site. Makers post products.
A maker can then buy one of ten featured slots in an upcoming week, paying through a checkout
gateway. The model covers these parts:

- **Booking handlers** (`schedule/book`, `verify-payment`, `cancel-payment`, `weeks`, `debug`). They are pure functions from a store to an `Outcome`: the store they leave plus the answer or error kind. The store holds users, posts and week schedules. The gateway, the clock and the id generator are parameters.
- **Posts API**. It covers submission checks, the full list and the public feed with filter, sort and paging.
- **Client logic** of the submission wizard, the inline post form, the booking page and the image carousel.
- **Helpers** `formatContent`, `randomString` and `nameToUsername`.

On top of the operations the project proves several properties:

- **A store invariant** kept by every handler and by any sequence of requests. A slot holds a post exactly when it is paid or awaiting payment. No post is ever `scheduled`. Every stored post passes its schema.
- **At most one schedule per calendar day**, built up from an empty store.
- **Round trips.** Booking and then cancelling restores the store. Running verify twice equals running it once. The slot number survives its text form in the checkout metadata.
- **The page and the handler agree.** A week the page lets you pick leads to a reservation.
- **Mismatches between client and server** that the code contains, listed below.

Modules follow the program's structure:

- `Common`, `Api`: shared types.
- `Strings`, `Sorting`, `Dates`: JavaScript `trim`/`split`/`replace`/`toString`, the MongoDB sort, and `moment`'s day and ISO-week arithmetic on millisecond instants.
- `Schedules`, `Posts`, `Store`: documents and queries.
- `Booking`, `Weeks`, `PostsApi`: the handlers.
- `Lifecycle`, `Shape`: invariants across requests.
- `BookingPage`, `PageFlow`, `SubmitForm`, `PostInput`, `ImageList`, `Carousel`, `TextHelpers`: the client logic and helpers.

Where the code's behaviour differs from what its comments and messages suggest, the model
follows the code:

- `verify-payment` marks the slot paid but never clears `paymentPending`.
- A second `cancel-payment` for the same reservation is refused as Forbidden, not accepted as a no-op. The released slot no longer names the caller.
- `POST /api/posts` builds a record without the `category` and `productUrl` the schema requires. The save therefore always fails and the endpoint can never store a post (`PostsApi.CreatePostNeverSaves`). The wizard's submission hits the same failure (`SubmitForm.SubmittedFormNeverSaved`).
- The wizard counts words on the trimmed description; the server counts them on the untrimmed one. A description opening with a line break and then exactly 100 words passes the wizard and is refused by the server (`SubmitForm.LeadingBreakCountsForServer`).
- The week listing counts a slot as available when it has no post, or when it is neither paid nor pending. It reads the slots through population, so a slot naming a post that is not stored reads back as free. The debug listing counts only stored slots without a post. The two counts differ in general (`Schedules.FreeVersusAvailable`). Under the invariant they differ exactly by the slots naming a post that is not stored (`Lifecycle.CountsAgree`).
- `verify-payment` marks the slot paid before it looks up the post. A payment check for a post that is not stored therefore leaves a paid slot that the week listing shows as free (`Lifecycle.PaymentForMissingPost`). The booking handler reads the slot unpopulated and refuses it as taken (`PageFlow.DanglingSlotRefused`).
- The wizard uploads several chosen images one by one. Each answer writes back the list as it was when the files were picked, plus its own address. Only the last answer survives, so the wizard keeps one new image however many were chosen (`ImageList.WizardKeepsOneUpload`). The inline form appends through a functional update and keeps them all (`ImageList.AddUploads`).
- The upload endpoint answers every refusal with JSON that has no `url`: a wrong verb, an unknown user, a missing file, or a failed upload such as a file over 10 MB. Both forms write that missing address into the featured-image list as an entry like any other. Only a request or JSON reading that fails writes nothing. So a refused upload fills a slot and passes the wizard's step-2 check (`SubmitForm.RefusedUploadPassesStep2`).

## Model

Some definitions have no row of their own because the rows that use them state what they do: the schema's validators `Posts.SchemaValid` through `Store.SavePost` and `PostsApi.InsertPost`, the link rewriting `TextHelpers.Linkify` through `TextHelpers.LinkInText` and `TextHelpers.LinkifyChars`, and the word count `Strings.WordCount` through `Strings.WordCountIsWordStarts`. Lengths are JavaScript's `length`, in UTF-16 code units (`Strings.Utf16Length`); the rows for `PostInput.TypeDescription` and `TextHelpers.UsernameLength` state how they are used.

| member | source | states |
|---|---|---|
| Posts.NewPost | src/models/Post.js:11-117 | a new document is of type `product`, a draft, not completed, with no scheduled week or publication time, keeping the given id, author, category and URL |
| Posts.StatusChangeKeepsValidity | src/models/Post.js:100-113 | status, scheduled week and publication time carry no validator: changing them never changes whether a post passes the schema |
| Schedules.NewSlot | src/models/Schedule.js:22-51 | a slot created from its number alone is vacant, priced 29 and has no payment id |
| Schedules.EmptySlots | src/pages/api/schedule/book.js:52-59 | a new week has ten vacant slots numbered 1 to 10 in order, each priced 29 |
| Schedules.NewSchedule | src/pages/api/schedule/book.js:61-65 | a new schedule carries the given week start and end and the ten empty slots, and is active |
| Schedules.FindSlot | src/pages/api/schedule/book.js:72 | the first slot with the number, or none exactly when no slot carries it |
| Schedules.FindSlotInEmptySlots | src/pages/api/schedule/book.js:52-75 | in a new week, slot number n is found exactly when 1 <= n <= 10, at position n - 1 |
| Schedules.FreeVersusAvailable | src/pages/api/schedule/weeks.js:64 | the debug count of post-less slots never exceeds the listing's available count; they are equal exactly when every slot holding a post is paid or pending, in particular when every slot is consistent |
| Schedules.CountAvailableUpdate | src/pages/api/schedule/weeks.js:64 | replacing one slot changes the available count by that slot's contribution only |
| Schedules.EmptySlotsAllAvailable | src/pages/api/schedule/weeks.js:43-64 | all ten slots of a new week are available under both counts |
| Schedules.CountFreeZero | src/pages/api/schedule/debug.js:25 | no slot is free exactly when every slot holds a post |
| Schedules.CountAvailable | src/pages/api/schedule/weeks.js:64 | at most the number of slots; zero exactly when no slot is available, all of them exactly when every slot is |
| Schedules.CountFree | src/pages/api/schedule/debug.js:25 | at most the number of slots, and all of them exactly when no slot holds a post |
| Api.StatusCode | src/pages/api/schedule/verify-payment.js:10-73 | every error kind is answered with a 4xx or 5xx status, and with a 5xx status exactly for a gateway failure or a failed save |
| Store.FindSchedule | src/pages/api/schedule/verify-payment.js:35 | the first schedule with the id, or none exactly when no schedule has it |
| Store.FindPost | src/pages/api/schedule/verify-payment.js:54 | the first post with the id, or none exactly when no post has it |
| Store.FindOwnDraft | src/pages/api/schedule/book.js:26-30 | the first post with the id, authored by the caller and in draft, or none exactly when there is no such post |
| Store.FindWeek | src/pages/api/schedule/book.js:40-45 | the first schedule whose week start falls on the requested day, or none exactly when there is none |
| Store.InsertSchedule | src/models/Schedule.js:5-9 | inserting succeeds exactly when neither the id nor the exact week start is taken, and then appends the schedule |
| Store.FindOrCreateWeek | src/pages/api/schedule/book.js:40-69 | returns the stored week of that day if any; otherwise appends a new ten-slot week at that start; users and posts are untouched |
| Store.FindOrCreateKeepsUnique | src/models/Schedule.js:5-9 | find-or-create keeps schedule ids and week starts unique |
| Store.WriteSlot | src/pages/api/schedule/book.js:82-88 | only the one slot changes; every other schedule and slot, the week's id and start, users and posts stay as they were |
| Store.SavePost | src/pages/api/schedule/verify-payment.js:59-62 | a save succeeds exactly when the new document passes the schema, and then replaces only that post |
| Store.Populate | src/pages/api/schedule/weeks.js:34-37 | each slot reads back as stored, except that a post id naming no stored post reads back as no post |
| Store.Dangling | src/pages/api/schedule/weeks.js:34-37 | the number of slots naming a post that is not stored, zero exactly when every named post is stored |
| Store.PopulateGrounded | src/pages/api/schedule/weeks.js:34-37 | population leaves the slots unchanged exactly when every post they name is stored |
| Dates.StartOfDay | src/pages/api/schedule/book.js:37 | the midnight at or before the instant, less than a day before it |
| Dates.StartOfIsoWeek | src/pages/api/schedule/weeks.js:21 | the Monday midnight at or before the instant, less than a week before it |
| Dates.SameIsoWeek | src/pages/api/schedule/weeks.js:21 | instants of the same ISO week share their week start |
| Dates.EndOfIsoWeek | src/pages/api/schedule/book.js:50 | the last millisecond of the Sunday of the same ISO week |
| Dates.NextIsoMonday | src/pages/api/schedule/weeks.js:21 | the first Monday midnight strictly after now, at most a week ahead, one week after this week's start |
| Dates.WeeksLater | src/pages/api/schedule/weeks.js:23-24 | whole weeks after a Monday midnight are Monday midnights |
| Booking.CheckoutRequestFor | src/pages/api/schedule/book.js:96-123 | one item at 2900 cents for the caller's email; the metadata names the schedule, post, user and week, and its slot-number text parses back to the requested number |
| Booking.Book | src/pages/api/schedule/book.js:9-136 | error order 405, 401, 404 without writes; a failed week creation is a server error; a missing or taken slot is refused after the week is created; a free slot is reserved and saved before the gateway is called, and a gateway failure keeps the reservation; posts are never touched |
| Booking.Verify | src/pages/api/schedule/verify-payment.js:8-32 | error order 405, 401, gateway failure, unpaid session, metadata mismatch, all without writes; a paid matching session records the payment |
| Booking.RecordPayment | src/pages/api/schedule/verify-payment.js:34-70 | a missing schedule or slot writes nothing; otherwise the slot is marked paid first, so a missing post or a failed post save leaves the slot paid; the post is published for the session's week |
| Booking.Cancel | src/pages/api/schedule/cancel-payment.js:6-63 | 405 and 401 first; a missing schedule or slot is NotFound; a slot the caller does not hold is Forbidden; otherwise the slot is released, and the post, if any, goes back to draft |
| Weeks.WeeksFrom | src/pages/api/schedule/weeks.js:23-75 | the remaining weeks are listed consecutively, each with the slots of the stored week of its day as population reads them and the count of those; any failure is a server error |
| Weeks.ListWeeks | src/pages/api/schedule/weeks.js:6-82 | 405 and 401 first; otherwise four weeks, the first starting at the next Monday, each a week after the previous, ending a millisecond before the next, each listing the populated slots of the stored week of that day |
| Weeks.ListedWeeksAreMondays | src/pages/api/schedule/weeks.js:21-25 | weeks laid out a week apart from a Monday midnight start on Monday midnights and end at the following Sunday's last millisecond |
| Weeks.ListedMonday | src/pages/api/schedule/weeks.js:21-25 | each week of a chain a week apart that opens on a Monday midnight starts on a Monday midnight |
| Weeks.Summarize | src/pages/api/schedule/debug.js:21-27 | the debug entry carries the schedule's id and dates, and counts post-less slots out of all slots |
| Weeks.Debug | src/pages/api/schedule/debug.js:6-33 | 405 and 401 first; otherwise one entry per stored schedule, sorted by week start, a permutation of the summaries |
| Sorting.SortBy | src/pages/api/schedule/debug.js:17 | the result is sorted by the key and is a permutation of the input |
| Sorting.Insert | src/pages/api/schedule/debug.js:17 | inserting into a sorted sequence keeps it sorted and adds exactly that element |
| Lifecycle.CountsAgree | src/pages/api/schedule/weeks.js:34-64 | under the invariant the listing's available count of a week, read through population, is the debug count plus the slots naming a post that is not stored, and equals the debug count exactly when every named post is stored |
| Lifecycle.WritersKeepSlotInv | src/pages/api/schedule/book.js:82-86 | reserved, paid and released slots all satisfy the slot invariant, and a released slot is vacant |
| Lifecycle.BookKeepsInv | src/pages/api/schedule/book.js:71-88 | booking keeps the store invariant |
| Lifecycle.RecordPaymentKeepsInv | src/pages/api/schedule/verify-payment.js:45-62 | recording a payment keeps the store invariant |
| Lifecycle.VerifyKeepsInv | src/pages/api/schedule/verify-payment.js:22-62 | payment verification keeps the store invariant |
| Lifecycle.CancelKeepsInv | src/pages/api/schedule/cancel-payment.js:36-52 | cancellation keeps the store invariant |
| Lifecycle.ListWeeksKeepsInv | src/pages/api/schedule/weeks.js:23-62 | listing the weeks, with the weeks it creates, keeps the store invariant |
| Lifecycle.RunKeepsInv | src/pages/api/schedule/book.js:81-86 | along any sequence of requests the invariant holds: every slot holds a post exactly when paid or pending, and no post is `scheduled` |
| Lifecycle.RunCountsAgree | src/pages/api/schedule/weeks.js:34-64 | from a store whose slots name stored posts, along requests whose payment checks name stored posts, population changes no slot and the listing and debug counts agree |
| Lifecycle.BookKeepsRefs | src/pages/api/schedule/book.js:24-88 | booking only writes the caller's stored draft into a slot, so every post a slot names stays stored |
| Lifecycle.RecordPaymentKeepsRefs | src/pages/api/schedule/verify-payment.js:34-62 | a payment for a stored post keeps every slot's post stored and every post id in place |
| Lifecycle.VerifyKeepsRefs | src/pages/api/schedule/verify-payment.js:8-62 | a payment check naming a stored post keeps every slot's post stored and every post id in place |
| Lifecycle.CancelKeepsRefs | src/pages/api/schedule/cancel-payment.js:36-52 | cancellation keeps every slot's post stored and every post id in place |
| Lifecycle.ListWeeksKeepsRefs | src/pages/api/schedule/weeks.js:23-62 | the weeks the listing creates are vacant, so every slot's post stays stored |
| Lifecycle.ApplyKeepsRefs | src/pages/api/schedule/verify-payment.js:34-62 | any one request whose payment check names a stored post keeps every slot's post stored and every post id in place |
| Lifecycle.RunKeepsRefs | src/pages/api/schedule/verify-payment.js:34-62 | along requests whose payment checks name stored posts, every slot's post stays stored |
| Lifecycle.PaymentForMissingPost | src/pages/api/schedule/verify-payment.js:34-57 | a matching payment check for a post that is not stored answers NotFound after marking the slot paid, and the listing then counts more available slots in that week than the debug listing |
| Lifecycle.RecordPaymentTwice | src/pages/api/schedule/verify-payment.js:45-62 | recording the same payment twice ends as recording it once at the later time |
| Lifecycle.VerifyTwice | src/pages/api/schedule/verify-payment.js:22-62 | repeating a verification ends as a single verification at the later time, whatever the first answered |
| Lifecycle.CancelTwice | src/pages/api/schedule/cancel-payment.js:31-43 | after a successful cancellation, repeating it is Forbidden and writes nothing |
| Lifecycle.BookThenCancel | src/pages/api/schedule/cancel-payment.js:36-52 | cancelling a reservation that booking made returns the store to its state before the booking, except for a newly created week, however the gateway answered |
| Lifecycle.CancelUndoesReserve | src/pages/api/schedule/cancel-payment.js:36-52 | releasing a slot just reserved for the caller's draft succeeds and gives back the store exactly |
| Lifecycle.DraftKeptByCancel | src/pages/api/schedule/cancel-payment.js:46-52 | the post a cancellation resets is the caller's draft, which the reset leaves unchanged and valid |
| Lifecycle.FindStoredPost | src/pages/api/schedule/cancel-payment.js:46 | with distinct post ids, looking up a stored post's id finds that very post |
| Lifecycle.BookTakesOneSlot | src/pages/api/schedule/book.js:77-88 | a successful reservation lowers its week's available count by exactly one |
| Shape.SameDay | src/pages/api/schedule/book.js:40-45 | the day-range query matches exactly the instants of the same calendar day |
| Shape.FindOrCreateTidy | src/pages/api/schedule/book.js:40-69 | find-or-create keeps at most one schedule per day, each with distinct slot numbers |
| Shape.RunTidy | src/models/Schedule.js:5-9 | from a store without schedules, any sequence of requests leaves at most one schedule per day, with distinct slot numbers and unique week starts |
| BookingPage.AutoSelect | src/pages/schedule.js:43-46 | with drafts, the first draft is selected; without, the selection is kept |
| BookingPage.FindListed | src/pages/schedule.js:63 | the first listed week with that start, or none exactly when none has it |
| BookingPage.FirstFree | src/pages/schedule.js:70 | the first slot without a post, or none exactly when every slot holds a post |
| BookingPage.PayAndSchedule | src/pages/schedule.js:54-94 | alerts when post or week is missing, when the week is not listed, or when it has no post-less slot, each exactly then; otherwise requests the first free slot of the first matching week for that post and week |
| BookingPage.Redirect | src/pages/schedule.js:99-104 | the page leaves for the checkout link exactly when the answer succeeded with a non-empty link |
| BookingPage.Shown | src/pages/schedule.js:215 | the first four weeks, or all of them when fewer |
| BookingPage.Click | src/pages/schedule.js:219 | a week with room becomes the selection; a full week leaves the selection as it was |
| PageFlow.ListedCountIsFree | src/pages/schedule.js:223 | under the invariant, a listed week's shown count is its number of listed slots without a post, population included |
| PageFlow.NoticeIffListedWeeksFull | src/pages/schedule.js:236 | the "all full" notice shows exactly when every listed week has a post in every slot |
| PageFlow.ChosenWeekIsBooked | src/pages/schedule.js:54-94 | when every post the stored slots name is stored, choosing a selectable listed week and an own draft makes the page send a request that the handler turns into a reservation and a checkout call for that post |
| PageFlow.PageSendsFreeSlot | src/pages/schedule.js:62-94 | for weeks laid out a week apart, choosing a week with a free slot makes the pay button request exactly that week and its first free slot |
| PageFlow.ListedRequestIsBooked | src/pages/schedule.js:62-94 | the same for any store whose slots name stored posts and any listing of consecutive weeks, each as population reads the stored week |
| PageFlow.HandlerTakesSlot | src/pages/api/schedule/book.js:71-88 | a request for a free slot of a stored week, by the owner of the draft, is reserved and passed to the gateway |
| PageFlow.DanglingSlotRefused | src/pages/api/schedule/book.js:71-79 | a stored slot naming a post that is not stored is listed with no post, yet a booking request for it is refused as taken without writes |
| PostsApi.Validate | src/pages/api/posts/index.js:36-61 | no rejection exactly when the body is acceptable; the first failing check in order is reported, each with its cause |
| PostsApi.Record | src/pages/api/posts/index.js:63-71 | the record keeps the trimmed title and description, the images as sent, is complete and a draft, and has no category or URL |
| PostsApi.InsertPost | src/pages/api/posts/index.js:73-74 | a save succeeds exactly when the record passes the schema and its id is new, and then appends it |
| PostsApi.CreatePost | src/pages/api/posts/index.js:28-80 | 401 for an unknown caller, 400 for a rejected body, otherwise the save of the record decides |
| PostsApi.CreatePostNeverSaves | src/pages/api/posts/index.js:63-78 | no submission is ever stored: the store is unchanged and the answer is an error |
| PostsApi.ListPosts | src/pages/api/posts/index.js:8-26 | 401 for an unknown caller; otherwise every stored post, newest first, a permutation of the store |
| PostsApi.FeedFilter | src/pages/api/posts/public.js:15-20 | keeps exactly the published posts of the category when one is given, each as often as stored |
| PostsApi.LimitBound | src/pages/api/posts/public.js:31 | a zero limit means no bound; otherwise at most the limit's absolute value |
| PostsApi.Window | src/pages/api/posts/public.js:23-33 | skip then limit: the elements from the skip position on, as many as the limit allows |
| PostsApi.PublicFeed | src/pages/api/posts/public.js:5-40 | 405 for other verbs; a negative skip is a server error exactly then; otherwise the page is the window at (page - 1) * limit of a ranking, newest published first, of all the matching posts, so it is in feed order, within the limit and drawn from the store |
| PostsApi.FeedPage | src/pages/api/posts/public.js:15-33 | the page is a window of some ranking of the matching posts in feed order; every post of it matches, it is within the limit and drawn from the store, empty when the skip passes every match and otherwise as long as the remaining matches and the limit allow |
| PostsApi.FeedPagesShareRanking | src/pages/api/posts/public.js:23-33 | any two pages for one category are windows of one and the same ranking, so with `ConsecutivePages` they neither repeat nor skip a post |
| PostsApi.FeedIsEveryMatch | src/pages/api/posts/public.js:13-35 | the first page with no limit is every matching post |
| PostsApi.ConsecutivePages | src/pages/api/posts/public.js:23 | consecutive pages of one size tile the ordered feed without gap or overlap |
| SubmitForm.TitleMessage | src/components/submitForm.js:46-48 | a message exactly when the name is blank, and then "Product name is required" |
| SubmitForm.DescriptionMessage | src/components/submitForm.js:50-60 | "required" when blank, "100 words or less" when the trimmed text has more than 100 words, none otherwise |
| SubmitForm.UrlMessage | src/components/submitForm.js:62-66 | "required" when blank, "valid URL" when the address does not parse, none otherwise |
| SubmitForm.Step1Errors | src/components/submitForm.js:43-70 | no messages exactly when step 1 is valid; one message per offending field, with the right text |
| SubmitForm.Step2Errors | src/components/submitForm.js:72-85 | no messages exactly when logo and images are present; a logo or image message exactly when that one is missing |
| SubmitForm.Next | src/components/submitForm.js:96-108 | steps 1 and 2 advance exactly when their checks pass and record their messages; step 3 stays |
| SubmitForm.Previous | src/components/submitForm.js:110-114 | back one step, never below 1, form and messages untouched |
| SubmitForm.ClearError | src/components/submitForm.js:34-40 | the edited field's message becomes empty if present; other messages and the set of fields are unchanged |
| SubmitForm.EditText | src/components/submitForm.js:28-41 | only the edited field changes, and its message is cleared |
| SubmitForm.EditImages | src/components/submitForm.js:28-41 | only the image list changes, and its message is cleared |
| SubmitForm.Act | src/components/submitForm.js:96-169 | any action keeps the step in 1..3 and the image list within four |
| SubmitForm.WizardStaysInRange | src/components/submitForm.js:149-169 | any sequence of actions keeps the step in 1..3 and at most four featured images |
| SubmitForm.SubmitBody | src/components/submitForm.js:183-188 | the body carries name, description, logo and images as typed, and not the address |
| SubmitForm.Submit | src/components/submitForm.js:171-189 | a body is sent exactly when step 2 passes, and it is the form's body |
| SubmitForm.SubmittedFormNeverSaved | src/components/submitForm.js:171-189 | a form passing both steps is acceptable to the server when its untrimmed text has at most 100 words, yet its submission is refused and nothing is stored |
| SubmitForm.RefusedUploadPassesStep2 | src/components/submitForm.js:129-134 | an empty image list that gets one refused upload holds a single entry without an address, and step 2's check then passes with no message |
| SubmitForm.LeadingBreakCountsForServer | src/components/submitForm.js:53-57 | a description opening with a line break counts one word more for the server than for the wizard, so 100 words pass the wizard and are refused by the server |
| SubmitForm.TooManyWordsRejected | src/pages/api/posts/index.js:57-61 | a submission that passes every other check and has more than 100 words is refused for its word count |
| ImageList.SlicePrefix | src/components/submitForm.js:154 | a prefix; a negative end counts back from the end; the end is clamped to the list |
| ImageList.FilesToUpload | src/components/submitForm.js:153-154 | as many files as there is room for within four, and none for a full list |
| ImageList.Entries | src/pages/api/upload.js:22-62 | the entries answered uploads write, in order: one per answer whether or not it carries an address, none for a lost upload, and one per upload when none is lost |
| ImageList.AddUploads | src/components/postInput.js:66-89 | the inline form's uploads: the old images kept in front, then one entry per answered upload in pick order, each the `url` of its answer (absent for a refusal), never beyond four images; with no lost upload, exactly one entry per chosen file |
| ImageList.OverwriteAnswers | src/components/submitForm.js:129-138 | each JSON answer, a refusal included, replaces the list by the picked-time list plus that answer's `url`; a lost upload writes nothing; so the result is the current list or the picked-time list plus one entry taken from an answer |
| ImageList.LastAnswerKept | src/components/submitForm.js:129-138 | when the last upload to finish gets a JSON answer, the list is the picked-time list plus that answer's `url`, absent for a refusal, whatever came before |
| ImageList.UnansweredKeepsList | src/components/submitForm.js:120-138 | when every upload is lost (the request or its JSON fails), the list is left as it was |
| ImageList.ChosenReplies | src/components/submitForm.js:153-157 | one reply per file that fits, in the order picked |
| ImageList.WizardUpload | src/components/submitForm.js:149-158 | the wizard's multi-file upload leaves the list as it was or adds exactly one entry after it, never beyond four |
| ImageList.WizardKeepsOneUpload | src/components/submitForm.js:129-158 | when the last upload to finish gets a JSON answer the wizard keeps only that entry, and with no lost upload the inline form's upload keeps one more entry per further chosen file |
| ImageList.RemoveAtDeletes | src/components/submitForm.js:164-169 | removing by position deletes exactly that image and keeps the others in order; an outside position changes nothing |
| PostInput.TypeDescription | src/components/postInput.js:133-134 | the description keeps at most 500 UTF-16 code units: the longest prefix of what was typed that fits, cut between characters, all of it when it fits, and nothing else changes |
| PostInput.UploadFeatured | src/components/postInput.js:66-89 | uploads extend the list, never beyond four, and a full list is unchanged |
| PostInput.RemoveFeatured | src/components/postInput.js:91-93 | removes exactly the image at the position; an outside position changes nothing |
| PostInput.SendPost | src/components/postInput.js:25-52 | sends the fields as typed with type `product`, then resets to an empty form the button refuses |
| PostInput.FormValidIsAcceptable | src/components/postInput.js:95-97 | with the image cap kept, the share button is enabled exactly when the server's checks accept the body |
| Carousel.NextPreviousInverse | src/components/ImageCarousel.js:44-50 | over a non-empty list next and previous stay in range and undo each other |
| Carousel.NextTimesRotates | src/components/ImageCarousel.js:44-46 | k presses of next move k places round the circle |
| Carousel.FullTurn | src/components/ImageCarousel.js:44-46 | as many presses of next as there are images come back to the start |
| Carousel.KeyDown | src/components/ImageCarousel.js:23-38 | closed: nothing happens; Escape closes and keeps the position; the arrows move back or forward |
| Carousel.Rerender | src/components/ImageCarousel.js:7-9 | the position returns to the requested start exactly when the start or the open state changed |
| Carousel.Render | src/components/ImageCarousel.js:56-108 | nothing exactly when closed or without images; otherwise the image at the position, absent when the position is outside |
| Carousel.StepsStayInRange | src/components/ImageCarousel.js:44-54 | opened inside the list, no sequence of keys, arrows or dots moves the position outside it |
| Strings.Trim | src/components/submitForm.js:46 | the result has no white space at either end, is empty exactly for white-space-only text, and is the text itself when its ends are clean |
| Strings.TrimStartIsLeading | src/components/submitForm.js:46 | trimming the start drops exactly the leading white-space run |
| Strings.TrimIsInfix | src/pages/api/posts/index.js:66-67 | the trimmed text is the text itself from the end of the leading white space on, and only white space follows it |
| Strings.Split | src/pages/api/posts/index.js:58 | one piece more than there are separators, none of them holding a separator |
| Strings.ReplaceChar | src/lib/functions.js:3 | the replaced character is gone when the replacement lacks it; text without it is unchanged; a one-character replacement keeps the length |
| Strings.IntString | src/pages/api/schedule/book.js:118 | never empty, and the decimal digits of a non-negative number |
| Strings.JoinSplit | src/pages/api/posts/index.js:58 | splitting on a character and joining back gives the original text |
| Strings.WordCountIsWordStarts | src/pages/api/posts/index.js:58 | the split-and-filter word count equals the number of maximal runs of non-space characters |
| Strings.WordCountZero | src/pages/api/posts/index.js:58 | there are no words exactly when the text is spaces only |
| Strings.ParseIntString | src/pages/api/schedule/book.js:118 | the slot number's text reads back to the number |
| Strings.IntStringInjective | src/pages/api/schedule/verify-payment.js:30 | two numbers have the same text exactly when they are equal, so the metadata comparison is a number comparison |
| Strings.LowerAscii | src/lib/functions.js:29 | each ASCII capital becomes its lower-case letter and every other character is kept |
| TextHelpers.UrlMatch | src/lib/functions.js:9 | a match only at `http://` or `https://` followed by at least one non-space character |
| TextHelpers.LinkifyChars | src/lib/functions.js:9-12 | every character of the linkified text comes from the text or from the anchor markup |
| TextHelpers.FormatContent | src/lib/functions.js:1-15 | no line break survives |
| TextHelpers.LinkifyNoScheme | src/lib/functions.js:9-12 | text without a scheme is left as it is |
| TextHelpers.LinkifyPlainPrefix | src/lib/functions.js:9-12 | a prefix in which no scheme starts, even across its end, is left as it is and the rest is linkified on its own |
| TextHelpers.LinkInText | src/lib/functions.js:9-12 | plain text, then a scheme with a host up to white space, then the rest: the plain text is kept, the link becomes one anchor, the white space is kept and the rest is linkified on its own |
| TextHelpers.FormatLinkInText | src/lib/functions.js:1-15 | the same for the whole formatter, when the plain text and the white space hold no line break |
| TextHelpers.PlainTextUnchanged | src/lib/functions.js:1-15 | one-line text without a scheme is returned unchanged |
| TextHelpers.WholeLink | src/lib/functions.js:9-12 | a scheme followed by non-space characters becomes a single anchor |
| TextHelpers.LinkSwallowsBreak | src/lib/functions.js:3-12 | a line break right after a link becomes `<br>` before linkification, so it is swallowed into the link along with the next line's first word |
| TextHelpers.Mask | src/lib/functions.js:18-22 | the mask holds exactly the groups whose marker character is requested, with their sizes |
| TextHelpers.Pick | src/lib/functions.js:24 | the rounded draw always indexes inside the mask |
| TextHelpers.RandomString | src/lib/functions.js:17-26 | the requested number of characters (none for a non-positive length), each the mask character of its draw; with an empty mask, "undefined" repeated |
| TextHelpers.Suffix | src/lib/functions.js:31 | the random suffix lies between 10 and 99 |
| TextHelpers.NameToUsername | src/lib/functions.js:28-34 | the name lower-cased with spaces replaced by `_`, then `_` and the two-digit suffix, three characters longer |
| TextHelpers.UsernameLength | src/models/User.js:14-19 | a generated username meets the schema's minimum length of 5 UTF-16 code units exactly when the name is at least two code units long |

## Left out

- Stripe's success and cancel URLs, line-item names and descriptions: these are string formatting with no effect on the store.
- `moment`'s display formatting (`weekDisplay`, `YYYY-MM-DD`) and time zones: instants are UTC milliseconds, and `weekStart` is kept as an instant.
- `parseInt` of a non-numeric query (NaN), and Mongoose `CastError` on malformed ids: limits and pages are modelled as integers and ids as strings.
- Concurrency between requests: requests are applied one at a time.
- SubmitForm.Act: an `Upload` action applies all of its answers at once. Edits the user makes while the uploads are still answering are not interleaved with them.
- React state, effects and the DOM (body overflow, textarea height, layout), the S3 upload endpoint and `refreshPosts`: the upload's reply is a parameter (`replyOf`: lost, or a JSON answer whose `url` may be absent). So is the order in which the wizard's uploads finish (`order`). A position naming no chosen file is an upload with no reply.
- ImageList.AddUploads: takes the inline form's answers in the order the files were picked, and a lost upload (an unhandled rejection there) writes nothing. Its functional update keeps every answer whatever their order, so only the order of the new images is fixed by this.
- `new URL` (a parameter `validUrl`), `Math.random` (a draw parameter) and the clock (`now`): these are external.
- Strings.LowerAscii: lower-cases ASCII letters only; Unicode case mapping is not modelled.
- TextHelpers.NameToUsername: for a name with non-ASCII letters, `toLowerCase` may change them and their number (U+0130 lowers to two characters); the model keeps them, so the exact character-by-character and length statements hold for JavaScript only on ASCII names.
- TextHelpers.UsernameLength: counts in UTF-16 code units as the schema does, but through `NameToUsername`'s ASCII lower-casing, so it is exact for names whose lower-casing keeps their length.
- PostInput.TypeDescription: how a browser cuts text pasted past `maxLength` is not fixed by the code; the model keeps the longest prefix that fits without splitting a character.
- Posts.SchemaValid: counts `maxlength` in UTF-16 code units (`Strings.Utf16Length`), as Mongoose does; characters are Unicode scalar values, so a lone surrogate cannot be represented.
- A refused logo upload sets `productImage` to `undefined`; the model gives the logo as typed text and stands for that with the empty string, which every check treats the same way.
- PostsApi.FeedPagesShareRanking: assumes that separate queries order posts with equal `publishedAt` the same way; MongoDB does not promise a stable order for ties.
- `src/pages/api/posts/index.js` sends no response for verbs other than GET and POST; the model has no answer for that case.
- PostsApi.ListPosts: ignores the `status=draft` query the booking page sends, as the handler does; the page is therefore given every post.
- PostsApi.PublicFeed: a negative limit is modelled as the absolute value (MongoDB's single-batch reading); the cursor-batch detail is not modelled.
- SubmitForm.EditText: requires a text field; images go through `EditImages`, as the form's callers do.
- Population of the slot's user and of the post's author, `likes`, `mentions`, `comments` and the secondary `categories` list: they do not affect any modelled decision. The population of a slot's post is modelled (`Store.Populate`).
- Deleting a post is not part of the modelled handlers. `Lifecycle.RunKeepsRefs` therefore covers stored posts staying stored. It assumes every payment check names a stored post; `Lifecycle.PaymentForMissingPost` shows what happens otherwise.
