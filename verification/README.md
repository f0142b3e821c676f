# MusicSite decision logic in Dafny

MusicSite is a small artist site on a hosted Supabase backend. It has:

- a public booking calendar;
- a contact form;
- a video-embed page;
- an admin area where inquiries are confirmed or denied, messages are read and media items are uploaded.

Two edge functions run on the server:

- `admin-review-booking` confirms or denies a booking inquiry;
- `admin-media-upload` signs a storage upload for an admin.

This project models the deterministic decision logic of those pages and functions as pure Dafny functions over immutable datatypes, and proves what that logic promises.

Modules, one per source file, plus shared helpers:

| module | models |
|---|---|
| `ReviewBooking` | the `admin-review-booking` handler: caller identity, error ladder, `deny`, `confirm` |
| `Duration` | its `durationToMinutes` label table and numeric fallback |
| `BookingStore` | the admins list, inquiries and bookings tables, with the exclusion constraint as an insert that refuses overlapping half-open ranges |
| `AuthIdentifier` | `scripts/auth-identifier.js` |
| `AdminMedia` | `scripts/admin-media.ts`: media types, folders, upload paths, form enabling, submit checks, payload |
| `MediaUpload` | the `admin-media-upload` handler |
| `Calendar` | `book-calendar.js`: Gregorian days, `YYYY-MM-DD` texts, month navigation, cell flags, select/open/submit |
| `AdminRequests` | `scripts/admin-requests.js`: rendering of inquiries and the confirm/deny click |
| `AdminMessages` | `scripts/admin-messages.js`: rendering, the telephone-column retry, deletion |
| `Contact` | `scripts/contact.js`: name/e-mail resolution, validation, insert retry, reset |
| `Embed` | `scripts/media.ts`: `toEmbedUrl` and the embed list |
| `Html` | the `escapeHtml` copies, proved equal to a per-character encoder, markup-safe and invertible |
| `DbErrors` | the shared `isMissingTelephoneColumn` test |
| `Text`, `Numbers`, `Js`, `Wrappers` | the JavaScript string, number and truthiness semantics the code relies on |

Everything that talks to the outside world is a parameter or an input value:

| outside world | modelled as |
|---|---|
| authentication service | a map from bearer tokens to user ids |
| database | the store plus a `Faults` record of errors per call |
| storage signing | a `Signing` outcome |
| `new URL` | a parsed-URL record or `None` |
| `new Date` parsing | `parseUtc: string -> Option<int>` (milliseconds) |
| `Date.now()`, `Math.random()` | `now` and `rand` |
| locale date formatting | `formatDate` |

## Model

| member | source | states |
|---|---|---|
| Duration.DurationToMinutes | supabase/functions/admin-review-booking/index.ts:57-77 | A label in the table gives its minutes; an inherited object key such as "constructor" is found by the lookup instead of the fallback; any other text gives the rounded hours of its leading decimal prefix times 60 when that prefix is finite and positive, and nothing otherwise |
| Duration.LabelMinutes | supabase/functions/admin-review-booking/index.ts:58-69 | The six labels map to 30, 60, 90, 120, 180 and 240 minutes |
| Duration.WholeHours | supabase/functions/admin-review-booking/index.ts:57-77 | "n hours" for every positive n gives 60·n minutes, whether the table or the numeric fallback answers |
| Duration.NonNumericRejected | supabase/functions/admin-review-booking/index.ts:71-76 | A text outside the table whose first character cannot start a number (such as "banana") resolves to no duration |
| ReviewBooking.ResolveAuthUserId | supabase/functions/admin-review-booking/index.ts:10-45 | A known bearer token's user wins; otherwise the result comes from the auth-user header or the claims' `sub`; no identity means neither is present |
| ReviewBooking.IdentityPrecedence | supabase/functions/admin-review-booking/index.ts:10-45 | With a valid bearer user, the header and claims are irrelevant; with a header, the claims are irrelevant; malformed claims count as absent |
| ReviewBooking.BearerOfToken | supabase/functions/admin-review-booking/index.ts:10-23 | "Bearer " followed by a known, trimmed token identifies that token's user |
| ReviewBooking.Payload | supabase/functions/admin-review-booking/index.ts:109-115 | A request is accepted exactly when the inquiry id is non-empty and the lower-cased action is "confirm" or "deny"; an unreadable body is refused |
| ReviewBooking.Deny | supabase/functions/admin-review-booking/index.ts:127-139 | A database error gives 400 with its message and no change; otherwise the guarded update is applied and the answer is "rejected", whether or not a row matched; bookings are never touched |
| BookingStore.DenyUpdate | supabase/functions/admin-review-booking/index.ts:127-133 | Only a pending or confirmed inquiry becomes rejected; every other field, row and booking is left as it was |
| ReviewBooking.BookingFor | supabase/functions/admin-review-booking/index.ts:141-151 | An unresolved or zero duration gives 400 "Invalid inquiry duration."; an inherited key, or a positive duration whose start does not parse or falls outside the valid Date range, gives 400 "Invalid inquiry time."; a planned booking spans exactly the mapped minutes from the parsed start, and both ends are valid Date values |
| ReviewBooking.Confirm | supabase/functions/admin-review-booking/index.ts:141-176 | A failed plan answers its 400 without any write; otherwise the planned booking is committed |
| BookingStore.InsertBooking | supabase/functions/admin-review-booking/index.ts:153-158 | The insert succeeds exactly when the range overlaps no stored booking and the database does not fail; an overlap is refused with code 23P01; success appends the booking and keeps the stored bookings pairwise disjoint |
| ReviewBooking.Commit | supabase/functions/admin-review-booking/index.ts:153-176 | 200 "confirmed" exactly when the insert and the status update both succeed; an overlap, or an insert error with code 23P01, gives 409 and changes nothing; any other insert error gives 400 with its message and changes nothing; a failed status update gives 400 with its message and leaves the new booking stored while the status stays as it was |
| ReviewBooking.Handle | supabase/functions/admin-review-booking/index.ts:79-180 | The codes are 200, 400, 401, 403, 404, 409 and 500; OPTIONS gets the preflight; a missing environment variable gives 500 "Missing Supabase environment configuration."; then no identity gives 401 "Unauthorized." and a failed admin lookup or a non-admin gives 403 "Admin access required.", in that order, and an admin's unreadable body gives 500 with the parse error's message, all without a write; the store changes only for an admitted request; admins and inquiry ids never change; disjoint bookings stay disjoint |
| ReviewBooking.PayloadAndInquiryRungs | supabase/functions/admin-review-booking/index.ts:109-125 | Past the admin check, an invalid payload answers 400 and an unknown or unreadable inquiry answers 404, both without a write |
| ReviewBooking.HandleAdmitted | supabase/functions/admin-review-booking/index.ts:117-176 | An admitted request is exactly the deny or confirm branch its action names |
| ReviewBooking.HandlePreservesConfirmedAreBooked | supabase/functions/admin-review-booking/index.ts:153-176 | Because the booking is inserted before the status update, every confirmed inquiry keeps a booking row across any request |
| ReviewBooking.CommitPreservesConfirmedAreBooked | supabase/functions/admin-review-booking/index.ts:153-176 | Committing a booking for an inquiry keeps every confirmed inquiry booked |
| ReviewBooking.DenyPreservesConfirmedAreBooked | supabase/functions/admin-review-booking/index.ts:127-133 | Denying keeps every confirmed inquiry booked, because it only removes confirmations |
| ReviewBooking.ConfirmIgnoresStatus | supabase/functions/admin-review-booking/index.ts:141-176 | The confirm answer does not depend on the inquiry's current status |
| ReviewBooking.ConfirmTwiceConflicts | supabase/functions/admin-review-booking/index.ts:141-165 | After a successful confirm, confirming the same inquiry again answers 409 and changes nothing |
| ReviewBooking.DenyIdempotent | supabase/functions/admin-review-booking/index.ts:127-133 | Applying the deny update twice equals applying it once |
| ReviewBooking.TwoHourBookingExample | supabase/functions/admin-review-booking/index.ts:141-151 | A "2 hours" inquiry at 14:00 on 2024-06-01 becomes a booking ending 7,200,000 ms after its start |
| AuthIdentifier.NormalizeUsername | scripts/auth-identifier.js:1-7 | The result holds only `[a-z0-9._-]`; a falsy value gives "" |
| AuthIdentifier.CollapseSpacesRun | scripts/auth-identifier.js:5 | A run of white space between space-free text and a non-space becomes exactly one dot |
| AuthIdentifier.NormalizeUsernameIdempotent | scripts/auth-identifier.js:1-7 | Normalising a normalised username changes nothing |
| AuthIdentifier.UsernameToAuthEmail | scripts/auth-identifier.js:9-16 | "" exactly when the username normalises to ""; otherwise the normalised username followed by "@arteplus.local", with no `@` before the domain |
| AuthIdentifier.AuthEmailShape | scripts/auth-identifier.js:9-16 | An auth e-mail has no white space or upper case, and its `@` starts the domain |
| AuthIdentifier.AuthEmailInjective | scripts/auth-identifier.js:9-16 | Two usernames share a non-empty auth e-mail only if they normalise alike |
| AuthIdentifier.IdentifierToEmail | scripts/auth-identifier.js:18-29 | A blank identifier gives ""; one whose trimmed text holds `@` gives exactly that text lower-cased; any other gives exactly the auth e-mail of its trimmed text, so "" or an address in the auth domain |
| AuthIdentifier.LoginWithUsername | scripts/auth-identifier.js:18-29 | Logging in with a sign-up username yields the address the account was registered under |
| AuthIdentifier.LoginWithAuthEmail | scripts/auth-identifier.js:18-29 | Logging in with the synthetic address itself yields that address |
| AdminMedia.ValidMediaTypes | scripts/admin-media.ts:7-9 | Exactly "photo", "audio" and "video" are media types, and each names its kind |
| AdminMedia.FolderForKind | scripts/admin-media.ts:11-13 | Photos go to "photos" and the other kinds to "audio"; never to the thumbnail folder |
| AdminMedia.SelectedKind | scripts/admin-media.ts:92-95 | The kind named by the trimmed, lower-cased select value, or none when that value is not a media type |
| AdminMedia.Extension | scripts/admin-media.ts:16 | "bin" for a name without a dot; otherwise the dot-free text after the last dot, possibly empty |
| AdminMedia.StripExtension | scripts/admin-media.ts:17 | Removes a final dot and the non-empty slash-free text after it, or leaves the name when there is none |
| AdminMedia.BaseSegment | scripts/admin-media.ts:17-20 | 1 to 60 characters of `[a-zA-Z0-9_-]`: "file" when the stripped name is empty, the whole scrubbed stripped name when it has at most 60 characters, and its first 60 scrubbed characters otherwise |
| AdminMedia.BuildUploadPath | scripts/admin-media.ts:15-24 | The path starts with the folder, base segment and "-", ends with "." and the lower-cased extension, and holds the time and random suffix between |
| AdminMedia.PlainNameParts | scripts/admin-media.ts:15-24 | A plain base name and extension are recovered unchanged from "base.ext" |
| AdminMedia.SyncFields | scripts/admin-media.ts:101-124 | The URL input shows exactly for video and the file input otherwise; the URL is cleared when hidden; submit is disabled exactly when the form is not ready |
| AdminMedia.SyncFieldsIdempotent | scripts/admin-media.ts:101-124 | Syncing a synced form changes nothing |
| AdminMedia.ValidateSubmit | scripts/admin-media.ts:159-209 | An accepted form meets every check for its kind; the handler stops silently exactly when the kind or title is missing; every refusal has a message |
| AdminMedia.AcceptableIsAccepted | scripts/admin-media.ts:159-209 | A form meeting every check is accepted with its kind |
| AdminMedia.AcceptedWasEnabled | scripts/admin-media.ts:119-123 | A form the submit handler accepts is one whose submit button was enabled |
| AdminMedia.ItemFor | scripts/admin-media.ts:227-236 | The payload holds the trimmed title; an empty subtitle becomes null; the external URL is set only for video; an unparsable sort order becomes 0 |
| AdminMedia.SortOrderOfNumeral | scripts/admin-media.ts:153 | A sort order typed as an integer numeral is stored as that integer |
| AdminMedia.UploadPaths | scripts/admin-media.ts:215-225 | The main file is uploaded exactly for a non-video item with a file, into its kind's folder; a thumbnail exactly when one is given, into "thumbs" |
| AdminMedia.Save | scripts/admin-media.ts:215-250 | The item is saved exactly when every upload and the insert succeed, and then the form resets with the success message; a failed main upload stops before anything else |
| AdminMedia.Submit | scripts/admin-media.ts:147-255 | Uploading happens exactly for an accepted form; a saved item meets every check, has a file exactly when it is not a video, and a URL exactly when it is |
| MediaUpload.SafeName | supabase/functions/admin-media-upload/index.ts:70 | Same length as the name; each character kept when in `[a-zA-Z0-9._-]`, else replaced by "_" |
| MediaUpload.UploadPath | supabase/functions/admin-media-upload/index.ts:71 | The path starts with "uploads/" and ends with "-" and the safe name |
| MediaUpload.UploadPathInjective | supabase/functions/admin-media-upload/index.ts:71 | Distinct timestamps or names give distinct paths |
| MediaUpload.PublicUrl | supabase/functions/admin-media-upload/index.ts:78 | The URL is the project URL, then "/storage/v1/object/public/media/", then the path, each part in its place |
| MediaUpload.PublicUrlInjective | supabase/functions/admin-media-upload/index.ts:78 | Under one project URL, distinct object paths have distinct public addresses |
| MediaUpload.Handle | supabase/functions/admin-media-upload/index.ts:20-90 | OPTIONS gives the preflight; then, in order: missing configuration gives 500, a missing header 401 "Missing authorization header.", an unknown user 401 "Unauthorized.", a non-admin 403, and a known admin is answered by the body and signing step; 401 and 403 occur exactly on those rungs; a grant carries the signed path and the public URL of the computed path |
| MediaUpload.Granting | supabase/functions/admin-media-upload/index.ts:63-86 | For a known admin: an unreadable body gives 500, a blank trimmed fileName 400 "fileName is required.", a signing failure 400 with the storage message or a default; a grant happens exactly for a non-blank name that was signed, and carries the public URL of `uploads/<now>-<safe name>` |
| Calendar.DaysInMonth | book-calendar.js:53-54 | 28 to 31 days; February has 29 exactly in leap years; April, June, September and November have 30 |
| Calendar.AddDays | book-calendar.js:15-19 | Adding days to a valid day gives a later valid day |
| Calendar.AddDaysAdd | book-calendar.js:15-19 | Adding m then n days equals adding m + n days |
| Calendar.ParseDateString | book-calendar.js:11-13 | Parsing the `YYYY-MM-DD` text of a day gives that day back |
| Calendar.DateStringInjective | book-calendar.js:70-72 | Distinct days have distinct date texts |
| Calendar.Initial | book-calendar.js:21-37 | The page opens on today's month with nothing selected and three distinct occupied days, the texts of the days 5, 12 and 23 days after today |
| Calendar.Next | book-calendar.js:112-121 | Moves one month forward, leaving every other field alone |
| Calendar.Prev | book-calendar.js:101-110 | Moves one month back, or nothing when the button is disabled on today's month |
| Calendar.PrevNextInverse | book-calendar.js:101-121 | Next then prev returns to the same state, and so does prev then next when prev is enabled |
| Calendar.NavigationKeepsGood | book-calendar.js:101-121 | Navigation never shows a month before today's and keeps the state well formed |
| Calendar.RenderMonth | book-calendar.js:50-99 | One cell per day of the month, each dated `YYYY-MM-DD`, disabled when before today or occupied, full only when occupied; prev disabled exactly on today's month |
| Calendar.Select | book-calendar.js:39-48 | An occupied day alerts and leaves the state alone; any other day becomes the selection |
| Calendar.PastDaySelectable | book-calendar.js:39-48 | A past, unoccupied day can be selected |
| Calendar.OpenDialog | book-calendar.js:160-178 | Without a selection the page alerts; with one the dialog opens showing the selection's date text |
| Calendar.Submit | book-calendar.js:188-202 | With a selection, its date text is appended to the occupied days and the selection cleared; without one nothing changes |
| Calendar.SubmittedDayRefused | book-calendar.js:188-202 | After submitting a day, selecting it again alerts that it is already booked |
| Html.Escape | scripts/media.ts:41-48 | Each special character is replaced by its entity and every other character kept; no raw markup character remains; decoding the five entities gives the input back |
| Html.EscapeValue | scripts/admin-requests.js:4-11 | A falsy value escapes to ""; any other escapes its text, markup-safe and invertible |
| AdminRequests.RenderRow | scripts/admin-requests.js:43-60 | Buttons exactly for a missing or "pending" status, carrying the row id; the status class is the lower-cased status defaulting to "pending"; every text field is escaped |
| AdminRequests.UppercasePendingHasNoButtons | scripts/admin-requests.js:47-58 | "PENDING" gets the pending style but no buttons |
| AdminRequests.Render | scripts/admin-requests.js:28-63 | One item per row; the message "No booking inquiries yet." exactly for an empty list |
| AdminRequests.ButtonsOnlyForPending | scripts/admin-requests.js:54-58 | In a rendered list, an item has buttons exactly when its row's status is missing or "pending" |
| AdminRequests.LoadInquiries | scripts/admin-requests.js:65-77 | A query error shows the failure message; otherwise every row is rendered, a missing list counting as empty |
| AdminRequests.ReviewRequestIdentifiesCaller | scripts/admin-requests.js:116-124 | The request a click sends identifies its caller to the review function by the session's token |
| AdminRequests.OnClick | scripts/admin-requests.js:92-133 | A click without action or id does nothing; without a token the session-expired message shows; the list reloads exactly when the call and its answer carry no error |
| DbErrors.MissingTelephoneColumnFieldwise | scripts/admin-messages.js:13-20 | No error is never a missing column; an error is one exactly when its fields mention "telephone" and "column" in any letter case |
| AdminMessages.RenderCard | scripts/admin-messages.js:36-50 | A telephone line exactly when the telephone is non-empty; every field escaped; the delete button carries the id |
| AdminMessages.RenderMessages | scripts/admin-messages.js:22-54 | One card per message; "No messages yet." exactly for an empty list |
| AdminMessages.LoadMessages | scripts/admin-messages.js:56-78 | The select is retried without telephone exactly when the first error is a missing telephone column, and the retry's result replaces the first |
| AdminMessages.RetryShowsNoTelephone | scripts/admin-messages.js:62-70 | After the retry no card shows a telephone |
| AdminMessages.OtherErrorNotRetried | scripts/admin-messages.js:62-73 | An error that never mentions "telephone" is shown as a failure without a retry |
| AdminMessages.OnDelete | scripts/admin-messages.js:93-121 | Nothing happens without an id or confirmation; the list reloads exactly when the delete succeeds |
| Contact.ResolveName | scripts/contact.js:54-58 | The username, else the full name, else the e-mail's local part, else "Authenticated user" |
| Contact.NameFromEmail | scripts/contact.js:54-58 | Without a username or full name, the name is the text before the e-mail's `@` |
| Contact.ResolveEmail | scripts/contact.js:59 | The contact e-mail, else the account e-mail, else "" |
| Contact.SyncContactFields | scripts/contact.js:45-88 | A signed-in visitor's fields hold the resolved name and e-mail, with the hint "Sending as: name", followed by " (email)" exactly when there is an e-mail; a guest's form is left as typed |
| Contact.Submit | scripts/contact.js:92-145 | Refused with "Please fill all fields." without a message, or for a guest without name or e-mail; a guest's payload carries the trimmed typed name and e-mail, a member's the resolved ones; the trimmed message is sent; a non-empty trimmed telephone is stored as itself and an empty one as null; the user id is the session's id or null; a second insert without telephone happens exactly on a missing-column error and decides the outcome; a failure answers "Could not send message right now."; on success a member's message is cleared and a guest's form reset |
| Contact.SignedInSendsAsAccount | scripts/contact.js:92-117 | A signed-in visitor's message is sent under the account's resolved name and e-mail |
| Embed.ToEmbedUrl | scripts/media.ts:3-39 | YouTube watch links with a `v`, and youtu.be links with a path id, become YouTube embed addresses; Vimeo links with a path id become player addresses; every other parsed URL gives its normalised serialisation, including YouTube embed links, other YouTube paths and youtu.be or Vimeo links with an empty id; unparsable text is returned verbatim |
| Embed.NormalHostOfWww | scripts/media.ts:6 | A leading "www." in any letter case is dropped and the host lower-cased |
| Embed.EmbedOfEmbed | scripts/media.ts:16-18 | An embed address is kept as the parser writes it |
| Embed.ShortAndWatchLinksAgree | scripts/media.ts:8-26 | A youtu.be link and a watch link for the same id give the same embed address |
| Embed.RenderEmbeds | scripts/media.ts:50-93 | A query error shows the unavailable message; an empty list shows "No video embeds published yet."; otherwise each source is the escaped embed address of its URL |

## Left out

- Network, SDK and DOM work is not modelled. This covers Supabase client construction, `getUser`/`getSession`, table queries, storage uploads and signed URLs, DOM updates, dialog animation, scroll locking and redirects. Their results are inputs.
- The session and redirect helpers are not part of this model: `auth-common.js`, `login.js`, `signup.js`, `account.js`, `auth-ui.js`, `admin-common.js` and `admin-media.js`. Neither is `vite.config.js`.
- The exclusion constraint exists only as the store's insert behaviour; the application has no re-check of its own.
- Floating point is not modelled. `parseFloat` and `Math.round` work over exact decimal mantissas and exponents, so IEEE rounding and overflow to `Infinity` are out.
- Non-ASCII text is not modelled. Case mapping and `\s` cover ASCII only.
- Dates and URLs are parameters. `new Date(...)` is `parseUtc`, `new URL(...)` is `isUrl` or a parsed record, and `formatDate` and `toLocaleString` are a `formatDate` parameter.
- Calendar years outside 1000 to 9999 are out of scope. There the source parts ways with the model, and with itself:
  - `Date.UTC` reads years 0 to 99 as 1900 to 1999, so February of year 0 has 28 days in the source and 29 in `Calendar.DaysInMonth`.
  - `toISOString` writes "0999-…" and "+010000-…", while the cell template writes "999-…" and "10000-…", so occupied days would not match.
  - Within 1000 to 9999, both writers produce the same four-digit `YYYY-MM-DD` text that `Calendar.DateString` gives. The contracts themselves are stated for every year from 0.
- Thrown network errors that reach the handlers' `catch` blocks are left out. Only the unreadable request body is modelled as the 500 path.
- MediaUpload.Handle: the catch block's 500 is modelled only for an unreadable body. A thrown network or SDK error is left out, so the 500 rung covers only the configuration check and the unreadable body.
- Contact.Submit: the user id is the id of the session read just before the insert, taken as a parameter, since the second `getSession` call is an outside read.
- AdminMedia.ItemFor: `Number.parseInt` reads its digits exactly, so a sort order too large for a double is not modelled. The source would turn it into `Infinity` and then 0.
- JSON request fields that hold objects, arrays or non-integral numbers are outside the model: `JsValue` has only nullish, boolean, integer and string values, so `String(value)` of an object or a fraction is not modelled. The `inquiryId`, `action` and `fileName` fields are therefore strings, integers, booleans or nullish.
- The row fields rendered by the admin pages are taken to be strings, with "" standing for a missing value. Those pages read them only through `|| ""` or the falsy-guarded `escapeHtml`.
- Embed.RenderEmbeds: takes every `video_url` to be a non-null string. In the source, a null `video_url` comes back as null from `toEmbedUrl`'s catch, and the unguarded `escapeHtml` of scripts/media.ts then throws on `null.replaceAll`. That rejects the whole page script, so no list is rendered. The model has no null row and so does not show this crash.

## Notes on the code's behaviour

These follow from the code as written, and the model keeps them:

- The `admin-media-upload` function ignores the `folder` field of its request body. Every path lies under `uploads/`.
- The calendar lets a past, unoccupied day be selected. Only the rendered cell is flagged disabled.
- `confirm` never looks at the inquiry's status. A second confirm of the same inquiry meets its own booking and answers 409.
- `deny` answers "rejected" even when its guarded update matched no row. It also leaves the booking of a confirmed inquiry in place.
- If the status update fails after a successful insert, the booking row stays while the inquiry keeps its old status.
- A row with status "PENDING" gets the pending style but no buttons, because the button test compares the unlowered status.
- A duration text equal to an inherited object key (such as "constructor") passes the minutes check and ends in "Invalid inquiry time.", not "Invalid inquiry duration.".
