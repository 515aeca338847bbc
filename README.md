# A verified model of the portfolio site's newsletter, admin and metadata logic

This project models, in Dafny, the parts of the portfolio and blog site that can be stated precisely. The site itself is mostly React screens over a hosted Postgres client.

- **Unsubscribe token.** `Jwt` models the token the newsletter puts in every unsubscribe link (src/lib/jwt.ts).
  - A token is three base64 segments joined by dots: a fixed header, the claims (subscriber id, email, purpose `unsubscribe`, expiry thirty days ahead) and `btoa(header + "." + payload + "." + secret)`.
  - Verification recomputes the third segment, decodes the claims and applies JavaScript's comparison rules to `exp` and `purpose`.
  - The runtime pieces the token needs are modelled concretely:
    - `Base64`: `btoa`, and `atob` with the forgiving decode that skips whitespace and accepts missing padding;
    - `Json`: the flat-object subset of `JSON.stringify` and `JSON.parse`;
    - `Uri`: `encodeURIComponent` and `decodeURIComponent`, over UTF-8;
    - `Text`: the string primitives (`\s`, `trim`, `toLowerCase`, `includes`, `split`, `join`, tag stripping).
- **Subscribers.** The `subscribers` table is a list of rows in table order. `Subscribers` holds its `update().eq()`, `select().eq()`, `.single()`, `insert` and `delete` shapes.
  - `UnsubscribePage` anonymises the row matching the token's id and email.
  - `Unsubscribe` looks the row up and then deactivates it by id.
  - `SubscribeFlow` is shared by `SubscriptionPopup` and `NewsletterSubscription`. It checks for an existing row, then reactivates it or inserts a new one.
  - `NewsletterComposer` keeps drafts in `localStorage` and sends one tokenised link per active subscriber.
  - `SubscribersManager` holds the admin's filters, selection, CSV export and bulk-email form.
- **Blog admin.** `Blog` holds the posts, comments, categories and `post_categories` links. On top of it:
  - `CommentsManager` moderates comments;
  - `AdminPanel` and `AdminContent` are the two admin screens, with search, post saving and category-link replacement;
  - `CategoriesManager` is the category form;
  - `Editor` covers the post editor's slug and image list;
  - `Slugs` holds the three slug rules.
- **Small state machines.** `CommentItem` is the like/dislike prompt, `PostLikeButton` the like toggle and `ImageUpload` the file picker.
- **Aggregation.** `Analytics` covers the counters and top-five tallies of the analytics queries. `AnalyticsChart` is the per-day bucketing of the dashboard chart.
- **Strings and paths.**
  - `Utils`: reading time and share links;
  - `Breadcrumbs`: the breadcrumb trail;
  - `Seo`: the head tags and JSON-LD objects of `SEO` and `useAutoSEO`;
  - `BlogSsr`: the server-rendered blog page;
  - `Sitemaps`: the three sitemap generators.

How the model is built:
- React state that a handler updates becomes a `class` whose methods change its fields.
- The database, the clock, the secret, the page origin and the IP lookup are parameters.
- A database call's outcome is a `Reply`: answered, answered with an error, or rejected.
- `toISOString` is the parameter `toIso`. It returns `None` where the date is invalid and the call throws.

The expiry boundary is the one the verifier's comparison gives:
- A token is rejected only once `exp < now` (src/lib/jwt.ts:28), so it is still accepted during the very second its `exp` names.
- `Jwt.CreateThenVerify` and `Jwt.VerifyCreated` state this inclusive boundary.

## Model

| member | source | states |
|---|---|---|
| Jwt.CreateDefined | src/lib/jwt.ts:2-13 | a token can be created (no `btoa` throws) exactly when the subscriber id, the email and the admin secret are all Latin-1 strings |
| Jwt.HeaderLatin1 | src/lib/jwt.ts:3 | the serialised header `{alg, typ}` is a Latin-1 string, so encoding it never throws |
| Jwt.PayloadLatin1 | src/lib/jwt.ts:4-9 | the serialised claims are Latin-1 exactly when the id and the email are |
| Jwt.PayloadLookups | src/lib/jwt.ts:4-9 | the claims hold `sub` = id, `email` = email, `purpose` = "unsubscribe" and `exp` = the current second plus thirty days |
| Jwt.SignLatin1 | src/lib/jwt.ts:11 | over Latin-1 segments the signature exists exactly when the secret is Latin-1 |
| Jwt.TokenShape | src/lib/jwt.ts:3-12 | a created token splits on `.` into exactly three segments: the encoded header, the encoded claims, and the base64 of `header.payload.secret` |
| Jwt.CreatedToken | src/lib/jwt.ts:3-12 | a created token is `h.p.btoa(h.p.secret)` with `h` and `p` the encodings of the header and the claims |
| Jwt.TokenPlain | src/lib/jwt.ts:2-12 | a created token holds no `%`, so URI-decoding it changes nothing |
| Jwt.ToNumber | src/lib/jwt.ts:28 | the relational comparison turns a missing `exp` into NaN and a number into itself |
| Jwt.CheckObject | src/lib/jwt.ts:25-40 | a decoded claims object is rejected when expired or when its purpose is not "unsubscribe", and otherwise yields its `sub` and `email` |
| Jwt.ClaimRules | src/lib/jwt.ts:28-35 | claims without `exp` never expire, a purpose other than "unsubscribe" is refused, a numeric `exp` below the current second is refused |
| Jwt.NullPayloadRejected | src/lib/jwt.ts:25-30 | a payload that decodes to `null` makes the `exp` read throw, and the token is rejected |
| Jwt.VerifySigned | src/lib/jwt.ts:17-40 | any token whose signature matches its first two segments is judged on its claims alone; the header segment is never inspected |
| Jwt.CheckPayload | src/lib/jwt.ts:4-9 | the claims a token is created with are accepted up to and including the second its `exp` names, and refused after |
| Jwt.VerifyCreated | src/lib/jwt.ts:15-44 | verifying a created token at a later time yields the subscriber it was made for up to thirty days after issue, and null after |
| Jwt.CreateThenVerify | src/lib/jwt.ts:2-44 | round trip: within thirty days, inclusive of the last second, verification returns the id and email the token was created for |
| Jwt.ExpiredRejected | src/lib/jwt.ts:28-30 | from the second after the thirtieth day a created token is rejected |
| Jwt.TamperedRejected | src/lib/jwt.ts:20-23 | a token whose header or payload segment was changed, or one checked against another secret, fails the signature check |
| Jwt.SignatureBinds | src/lib/jwt.ts:11 | two signatures are equal only over the same header, payload and secret |
| Jwt.BadSignature | src/lib/jwt.ts:17-23 | any token whose third segment is not the signature over its first two is rejected, whatever its claims |
| Jwt.TooFewSegments | src/lib/jwt.ts:17-23 | a token with fewer than two dots has an undefined signature and is rejected |
| Jwt.ExtraSegmentsIgnored | src/lib/jwt.ts:17 | the destructuring keeps three segments, so anything after a third dot is ignored |
| Jwt.SecretRecoverable | src/lib/jwt.ts:11-12 | the signature is a base64 encoding, not a keyed hash: decoding the third segment yields the first two and the admin secret |
| Jwt.SlashInToken | src/lib/jwt.ts:11-12 | for every subscriber, some short ASCII secret makes the created token hold a `/` |
| Base64.Atob | src/lib/jwt.ts:25 | what `atob` returns is a Latin-1 string; malformed input is the thrown exception (`None`) |
| Base64.EncodeAlphabet | src/lib/jwt.ts:3-4 | `btoa` writes only base64 alphabet characters and `=`, and never a `.` |
| Base64.EncodeText | src/lib/jwt.ts:11-12 | an encoding is itself a Latin-1 string with no `.` or `%`, so it can be signed, joined by dots and URI-decoded unchanged |
| Base64.EncodeLength | src/lib/jwt.ts:3-4 | the length of an encoding is a multiple of four |
| Base64.UnpaddedAlphabet | src/lib/jwt.ts:3-4 | the characters before padding are all base64 alphabet characters |
| Base64.UnpaddedSize | src/lib/jwt.ts:3-4 | the encoding takes four characters per full group of three bytes, and two or three characters for a trailing group of one or two bytes |
| Base64.UnpaddedLength | src/lib/jwt.ts:3-4 | the unpadded encoding leaves a partial group of two or three characters exactly when the input ends with one or two spare bytes |
| Base64.UnpaddedAppend | src/lib/jwt.ts:11 | encoding works three bytes at a time: a prefix whose length is a multiple of three encodes on its own |
| Base64.GroupRoundTrip | src/lib/jwt.ts:25 | the four characters of a group decode to its three bytes |
| Base64.DecodeUnpadded | src/lib/jwt.ts:25 | decoding the unpadded characters gives back the input |
| Base64.StripPaddingEncode | src/lib/jwt.ts:25 | the decoder removes exactly the padding the encoder added |
| Base64.RemoveWhitespaceEncode | src/lib/jwt.ts:25 | an encoding has no whitespace for the decoder to skip |
| Base64.AtobEncode | src/lib/jwt.ts:4-25 | round trip: `atob(btoa(s)) == s` for every Latin-1 string |
| Base64.BtoaInjective | src/lib/jwt.ts:20-21 | two strings with the same encoding are equal, so a matching signature means a matching signed text |
| Base64.EncodeCanProduceSlash | src/lib/jwt.ts:11 | the alphabet includes `/`: the byte 0xFF encodes as `/w==` |
| Base64.SlashAtGroupEnd | src/lib/jwt.ts:11 | a `?` that ends a three-byte group encodes to `/`, so plain ASCII text can encode to text holding a slash |
| Json.EscapeChar | src/lib/jwt.ts:4-9 | each escaped character is non-empty, does not start with a quote, and stays within Latin-1 when the character is |
| Json.Defined | src/components/NewsletterComposer.tsx:36 | the members `JSON.stringify` writes are those whose value is not `undefined` |
| Json.StringRoundTrip | src/lib/jwt.ts:25 | a string literal is read back as the string it encodes, leaving the text after it |
| Json.NumberRoundTrip | src/lib/jwt.ts:8 | an integer's decimal text, negative ones included, is read back as the integer |
| Json.ScalarRoundTrip | src/lib/jwt.ts:25 | every defined scalar's text is read back as that scalar |
| Json.MemberRoundTrip | src/lib/jwt.ts:25 | a `"key":value` member is read back as the same key and value |
| Json.MembersRoundTrip | src/lib/jwt.ts:25 | the members of an object are read back in order up to its closing brace |
| Json.ParseStringify | src/lib/jwt.ts:4-25 | `JSON.parse(JSON.stringify(o))` gives back every member of an object with no `undefined` member |
| Json.EscapeLatin1 | src/lib/jwt.ts:4 | a string's literal is Latin-1 exactly when the string is |
| Json.StringifyLatin1 | src/lib/jwt.ts:3-4 | a serialised object is Latin-1 (so `btoa` accepts it) exactly when every member it writes has Latin-1 keys and strings |
| Text.LowerChar | src/pages/AdminPanel.tsx:53 | `toLowerCase` maps each upper-case ASCII letter to its lower-case letter and leaves every other character alone |
| Text.Lower | src/pages/AdminPanel.tsx:53-69 | lower-casing keeps the length and works character by character |
| Text.LowerIdempotent | src/pages/AdminPanel.tsx:53-69 | lower-casing twice is lower-casing once |
| Text.LowerAppend | src/pages/AdminPanel.tsx:53-69 | lower-casing distributes over concatenation |
| Text.IncludesIsSubstring | src/pages/AdminPanel.tsx:56-69 | `includes` is exactly the substring relation |
| Text.IncludesEmpty | src/components/CommentsManager.tsx:17-19 | every text includes the empty query, so an empty search matches everything |
| Text.TrimStartShape | src/components/NewsletterSubscription.tsx:15 | trimming the front drops exactly the leading whitespace and keeps a suffix starting with a non-space |
| Text.TrimEndShape | src/components/NewsletterSubscription.tsx:15 | trimming the end drops exactly the trailing whitespace and keeps a prefix ending with a non-space |
| Text.BlankIffAllSpace | src/components/NewsletterComposer.tsx:22 | text is blank after trimming exactly when it is made only of whitespace |
| Text.TrimOfNoSpace | src/components/NewsletterSubscription.tsx:31 | text without whitespace is its own trim |
| Text.Take | src/hooks/useAutoSEO.ts:33 | `substring(0, n)` is a prefix of length `min(n, length)` |
| Text.CloseTag | src/lib/utils.ts:4 | the position found is just after the first `>`, or 0 when there is none |
| Text.StripTags | src/lib/utils.ts:4 | stripping tags never lengthens the text |
| Text.StripTagsNoAngle | src/lib/utils.ts:4 | text without `<` is left as it is |
| Text.StripTagsLeavesNoTag | src/hooks/useAutoSEO.ts:33 | after stripping, no `<` is followed later by a `>`: no tag survives |
| Text.StripTagsKeepsOnlyFrom | src/hooks/useAutoSEO.ts:33 | stripping adds nothing: text without `>` stays without `>` |
| Text.Split | src/lib/jwt.ts:17 | `split` always yields at least one piece |
| Text.SplitJoin | src/lib/jwt.ts:17 | splitting gives one more piece than there are separators, no piece holds the separator, and joining undoes it |
| Text.JoinSplit | src/lib/jwt.ts:12-17 | joining separator-free pieces and splitting again gives the pieces back |
| Text.SplitAppend | src/components/Breadcrumbs.tsx:7 | splitting at a separator splits each side independently |
| Text.JoinExcludes | src/components/SubscribersManager.tsx:72-80 | a character in neither the pieces nor the separator is not in their join |
| Text.Latin1Append | src/lib/jwt.ts:11 | a concatenation is Latin-1 exactly when both parts are |
| Text.Decimal | src/lib/jwt.ts:8 | `String(n)` is a non-empty run of decimal digits |
| Text.DecimalRoundTrip | src/lib/jwt.ts:8-25 | reading the decimal digits back gives the number |
| Text.DecimalNoLeadingZero | src/lib/jwt.ts:8 | only zero is written with a leading zero |
| Uri.Utf8 | src/lib/utils.ts:11 | a code point is one to four bytes in UTF-8 |
| Uri.EncodeIsEncoded | src/lib/utils.ts:11-23 | `encodeURIComponent` writes only unreserved characters and `%`, so no `&`, `=`, `?`, `#` or `/` can start a new parameter, fragment or path segment |
| Uri.DecodePlain | src/pages/UnsubscribePage.tsx:20 | text without `%` decodes to itself |
| Uri.MalformedEscape | src/pages/UnsubscribePage.tsx:20 | a `%` not followed by two hexadecimal digits makes `decodeURIComponent` throw |
| Uri.StrayContinuation | src/pages/UnsubscribePage.tsx:20 | a lone UTF-8 continuation byte (`%80`) makes decoding throw |
| Uri.DecodeEncodedChar | src/pages/UnsubscribePage.tsx:20 | the escapes of one encoded character decode to that character |
| Uri.DecodeEncode | src/pages/UnsubscribePage.tsx:20 | round trip: `decodeURIComponent(encodeURIComponent(s)) == s` for every string |
| Subscribers.Update | src/pages/UnsubscribePage.tsx:33-41 | an `update(...).eq(...)` keeps the number of rows |
| Subscribers.UpdateOnlyMatching | src/pages/UnsubscribePage.tsx:33-41 | an update changes only the rows matching every filter, only in the patched columns, and never an id |
| Subscribers.UpdateKeepsUniqueIds | src/components/Unsubscribe.tsx:64-67 | an update keeps the ids unique |
| Subscribers.InsertKeepsUniqueIds | src/components/NewsletterSubscription.tsx:47-53 | inserting a row with a fresh id keeps the ids unique |
| Subscribers.UpdateByIdIdempotent | src/components/Unsubscribe.tsx:64-67 | repeating an update filtered on the id changes nothing more |
| Subscribers.SelectSound | src/components/Unsubscribe.tsx:40-45 | a select returns exactly the rows matching every filter, in table order |
| Subscribers.DeleteSound | src/components/SubscribersManager.tsx:56-60 | a delete keeps exactly the rows that do not match; kept and selected rows add up to the table |
| Subscribers.SelectByIdAtMostOne | src/components/Unsubscribe.tsx:40-45 | with unique ids a select on the id finds at most one row, and that row carries the id |
| Subscribers.SingleMatches | src/components/Unsubscribe.tsx:45-50 | what `.single()` returns is a row of the table matching every filter |
| Subscribers.SingleAt | src/components/Unsubscribe.tsx:45 | when a select returns exactly one row, no other row of the table matches |
| Subscribers.Table.UpdateWhere | src/pages/UnsubscribePage.tsx:33-41 | the table becomes the update of its old rows |
| Subscribers.Table.DeleteWhere | src/components/SubscribersManager.tsx:56-60 | the table becomes its old rows without the matching ones |
| Subscribers.Table.Insert | src/components/NewsletterSubscription.tsx:47-53 | the table gains one row at its end, with a fresh id |
| Browser.Storage.GetItem | src/components/NewsletterComposer.tsx:34 | `getItem` returns the stored string exactly when the key was set, and `null` otherwise |
| Browser.Storage.SetItem | src/components/NewsletterComposer.tsx:36 | `setItem` stores the value under the key and changes no other key |
| UnsubscribePage.Outcome | src/pages/UnsubscribePage.tsx:13-55 | the effect always leaves the loading state: `success` exactly for an accepted token with a client and an answered update; `invalid` exactly for a missing or bad token or a rejected update, which lands in the `catch`; `error` for no client or an answered `error` |
| UnsubscribePage.Page.constructor | src/pages/UnsubscribePage.tsx:8-9 | the page starts loading with an empty email |
| UnsubscribePage.Page.HandleUnsubscribe | src/pages/UnsubscribePage.tsx:12-56 | the status is the outcome of the decoded and verified token and of how the update ended; the email is set once the token is accepted; the table is anonymised exactly on success, and left alone after an errored or rejected update |
| UnsubscribePage.CreatedLinkAccepted | src/pages/UnsubscribePage.tsx:20-29 | a link holding a freshly created token, followed within thirty days, names the subscriber it was made for |
| UnsubscribePage.MalformedLinkInvalid | src/pages/UnsubscribePage.tsx:20-54 | a malformed percent-escape throws in decoding, the status becomes `invalid` and the table is untouched |
| UnsubscribePage.AnonymiseOnlyMatching | src/pages/UnsubscribePage.tsx:35-41 | only rows carrying both the claimed id and the claimed email are deactivated and given the placeholder email and name |
| UnsubscribePage.AnonymiseTwice | src/pages/UnsubscribePage.tsx:35-41 | following the same link again changes nothing, since the row no longer carries the token's email |
| UnsubscribePage.AnonymousEmailHidden | src/pages/UnsubscribePage.tsx:37 | every placeholder email contains `@deleted.local`, which the subscriber list hides |
| Unsubscribe.View.constructor | src/components/Unsubscribe.tsx:10-13 | the view starts loading, with no subscriber, not unsubscribed and no error |
| Unsubscribe.View.Mount | src/components/Unsubscribe.tsx:15-57 | after mounting, the error message and the loaded row are those the token, the client and the lookup decide, and loading is over |
| Unsubscribe.View.HandleUnsubscribe | src/components/Unsubscribe.tsx:59-76 | without a client or a loaded row nothing changes; otherwise the row is deactivated by id on success, or the failure message is set |
| Unsubscribe.LoadedRowMatches | src/components/Unsubscribe.tsx:32-50 | a loaded subscriber is a table row carrying the id and email of a valid token |
| Unsubscribe.DeactivateOnlyThatRow | src/components/Unsubscribe.tsx:64-67 | deactivating keeps the row's id, email and name, touches no other row, and is idempotent |
| Unsubscribe.MessagesDistinct | src/components/Unsubscribe.tsx:19-72 | the six failure messages are pairwise distinct |
| SubscribeFlow.Rejection | src/components/NewsletterSubscription.tsx:15-23 | a submission is stopped before any query exactly when a trimmed field is blank ("fill in all fields") or there is no client ("service unavailable") |
| SubscribeFlow.Run | src/components/NewsletterSubscription.tsx:26-57 | the lookup by trimmed email followed by the update or the insert leaves the table and the outcome the subscribe step defines; a rejected lookup fails, and an answered lookup error goes on as if no row were found |
| SubscribeFlow.StepKeepsUniqueIds | src/components/NewsletterSubscription.tsx:39-53 | with a fresh id for the insert, subscribing keeps the ids unique |
| SubscribeFlow.StepEffect | src/components/NewsletterSubscription.tsx:28-63 | a failure or "already subscribed" leaves the table alone, a reactivation touches only rows of that email, an insert appends one active row; the step fails exactly when the lookup rejects, the insert does not answer (also after an errored lookup), or the reactivation is rejected |
| SubscribeFlow.StepSubscribes | src/components/NewsletterSubscription.tsx:34-56 | when the writes answer, the email's lookup afterwards finds exactly one row, and it is active |
| SubscribeFlow.SubscribeTwice | src/components/NewsletterSubscription.tsx:34-36 | submitting the same email again reports "already subscribed" and changes nothing, whatever the name |
| SubscribeFlow.ErroredLookupInserts | src/components/NewsletterSubscription.tsx:28-56 | the lookup's `error` is never read: an errored lookup inserts a new row even for a subscribed email, after which the email has two rows and `.single()` finds none |
| Subscribers.SelectAppendRow | src/components/NewsletterSubscription.tsx:28-32 | appending a row adds it to a selection exactly when it matches the filters |
| SubscribeFlow.ReactivationErrorIgnored | src/components/NewsletterSubscription.tsx:39-43 | the reactivation's error is not checked: it still reports "reactivated" though the row stays inactive |
| SubscriptionPopup.Message | src/components/SubscriptionPopup.tsx:40-66 | an error toast exactly on failure, an info toast exactly for "already subscribed" |
| SubscriptionPopup.Popup.constructor | src/components/SubscriptionPopup.tsx:12-14 | the popup starts with empty fields, not loading |
| SubscriptionPopup.Popup.HandleSubscribe | src/components/SubscriptionPopup.tsx:17-70 | a rejected submission only shows its toast; otherwise the table follows the subscribe step, its toast is shown, and on success the subscription is remembered in localStorage and the popup asks to close; the step covers a rejected lookup (failure) and an answered lookup error (the insert branch) |
| SubscriptionPopup.Popup.HandleClose | src/components/SubscriptionPopup.tsx:72-76 | closing records the dismissal in sessionStorage and asks to close, changing nothing else |
| NewsletterSubscription.Message | src/components/NewsletterSubscription.tsx:36-63 | an error toast exactly on failure, an info toast exactly for "already subscribed" |
| NewsletterSubscription.Form.constructor | src/components/NewsletterSubscription.tsx:7-9 | the form starts with empty fields, not loading |
| NewsletterSubscription.Form.HandleSubscribe | src/components/NewsletterSubscription.tsx:12-67 | a rejected submission only shows its toast; otherwise the table follows the subscribe step, its toast is shown, and the fields are cleared unless the step failed; the step covers a rejected lookup (failure) and an answered lookup error (the insert branch) |
| NewsletterComposer.DraftOf | src/components/NewsletterComposer.tsx:27-32 | a draft keeps the content and the time as its id, and its subject is the form's subject, or a placeholder when that is empty |
| NewsletterComposer.Newest | src/components/NewsletterComposer.tsx:36 | `slice(0, 10)` keeps a prefix of at most ten drafts, all of them when there are fewer |
| NewsletterComposer.DraftStore.constructor | src/components/NewsletterComposer.tsx:34 | the store holds the parsed stored list |
| NewsletterComposer.Composer.constructor | src/components/NewsletterComposer.tsx:12-16 | the composer starts with an empty form, in edit mode, not sending, with no drafts shown |
| NewsletterComposer.Composer.Mount | src/components/NewsletterComposer.tsx:116-119 | on mount the drafts shown are the stored drafts, and nothing else changes |
| NewsletterComposer.Composer.SaveDraft | src/components/NewsletterComposer.tsx:21-39 | with subject and content both blank only the error toast is added; otherwise the new draft goes in front, the ten newest are stored and the whole list is shown |
| NewsletterComposer.Composer.LoadDraft | src/components/NewsletterComposer.tsx:41-45 | loading a draft replaces the subject and content and adds the toast |
| NewsletterComposer.Composer.TogglePreview | src/components/NewsletterComposer.tsx:131-160 | the preview button flips the preview mode and changes nothing else |
| NewsletterComposer.Composer.SendNewsletter | src/components/NewsletterComposer.tsx:47-114 | the request made and the toast shown are those the send defines, each recipient carrying the link as the code writes it (raw token in the path); the form is cleared and preview left exactly on success; sending ends false |
| NewsletterComposer.Composer.Settle | src/components/NewsletterComposer.tsx:58-113 | after a send the toast is appended, a success toast clears subject and content and leaves the preview, a send that passed the checks ends with `sending` off, and the drafts are untouched |
| NewsletterComposer.ActiveSubscribersSpec | src/components/NewsletterComposer.tsx:19 | the active subscribers are an order-preserving sublist holding every active subscriber and nothing else |
| NewsletterComposer.RecipientForSpec | src/components/NewsletterComposer.tsx:66-87 | a subscriber's entry exists exactly when a token can be made, and then carries its email, its name and a link whose text after `/unsubscribe/` is that token, unencoded |
| NewsletterComposer.RecipientsSpec | src/components/NewsletterComposer.tsx:66-69 | the recipients exist exactly when every active subscriber has an entry, and then follow the subscribers one for one, in order |
| NewsletterComposer.RequestOnlyWhenReady | src/components/NewsletterComposer.tsx:48-89 | a request goes out only with a non-blank subject and content and an active subscriber, and carries them with one recipient per active subscriber |
| NewsletterComposer.SuccessOnlyWhenDelivered | src/components/NewsletterComposer.tsx:91-109 | the success toast appears exactly when a request was made and answered OK, and it names the number of recipients |
| NewsletterComposer.ReadyFormSends | src/components/NewsletterComposer.tsx:64-89 | with Latin-1 ids, emails and secret a ready form always makes a request |
| NewsletterComposer.StoredBehindShown | src/components/NewsletterComposer.tsx:34-37 | the stored list never exceeds ten and is a prefix of the list shown, which can hold one draft more |
| NewsletterComposer.SaveTwiceOrder | src/components/NewsletterComposer.tsx:35-36 | saving twice keeps both drafts, newest first, ahead of the older ones |
| NewsletterComposer.RawLinkSplitsPath | src/components/NewsletterComposer.tsx:86 | as written, for every subscriber some short secret makes the link's token hold a `/`, so the text after `/unsubscribe/` spans two path segments |
| NewsletterComposer.EncodedLinkOneSegment | src/components/NewsletterComposer.tsx:86 | with the token percent-encoded, the text after `/unsubscribe/` is one path segment and decodes back to the token |
| NewsletterComposer.RecipientLinkAccepted | src/pages/UnsubscribePage.tsx:20-29 | end to end for the link as sent: when the token holds no `/`, the text after `/unsubscribe/` is one segment, and the unsubscribe page accepts it within thirty days as naming that subscriber (the route `/unsubscribe/:token` is inferred from the page's `useParams`; src/App.tsx declares no such route) |
| NewsletterComposer.RecipientForFixed | src/components/NewsletterComposer.tsx:66-87 | the corrected entry exists exactly when the as-written one does, for the same subscriber, with the token percent-encoded in the link |
| NewsletterComposer.RecipientLinkAcceptedFixed | src/pages/UnsubscribePage.tsx:20-29 | end to end for the corrected link: for every token the text after `/unsubscribe/` is one segment, accepted within thirty days as naming that subscriber |
| SubscribersManager.Ids | src/components/SubscribersManager.tsx:118 | the ids of the listed rows, one per row, in order |
| SubscribersManager.Manager.constructor | src/components/SubscribersManager.tsx:12-18 | the manager starts with an empty search, status `all`, nothing selected and the modal closed |
| SubscribersManager.Manager.SelectAll | src/components/SubscribersManager.tsx:114-120 | a selection as long as the list is cleared, otherwise every listed id is selected |
| SubscribersManager.Manager.SetChecked | src/components/SubscribersManager.tsx:258-263 | checking appends the id; unchecking removes every copy of it and nothing else |
| SubscribersManager.Manager.ToggleSubscriberStatus | src/components/SubscribersManager.tsx:35-51 | without a client nothing happens; an answered update flips `active` on that row, toasts and refreshes; a failed one only shows the error |
| SubscribersManager.Manager.DeleteSubscriber | src/components/SubscribersManager.tsx:53-69 | without a client or confirmation nothing happens; an answered delete removes that row, toasts and refreshes; a failed one only shows the error |
| SubscribersManager.Manager.ExportSubscribers | src/components/SubscribersManager.tsx:71-90 | the CSV written is that of the listed rows, and the success toast is shown |
| SubscribersManager.Manager.SendBulkEmail | src/components/SubscribersManager.tsx:92-112 | with a blank subject or content only the error toast is shown; otherwise the toast counts the selection, and form, selection and modal are reset |
| SubscribersManager.VisibleSpec | src/components/SubscribersManager.tsx:21-33 | the list is an order-preserving sublist holding exactly the rows not anonymised that match the search and the status |
| SubscribersManager.StatusFilter | src/components/SubscribersManager.tsx:29-31 | `active` keeps only active rows, `inactive` only inactive ones, `all` every row that matches the search |
| SubscribersManager.VisibleCounts | src/components/SubscribersManager.tsx:29-31 | under `all` the list splits into its active and its inactive rows |
| SubscribersManager.SearchCaseInsensitive | src/components/SubscribersManager.tsx:27-28 | an empty search matches every row, and the search ignores ASCII case in the query and in the row |
| SubscribersManager.AnonymisedHidden | src/components/SubscribersManager.tsx:23-25 | a row anonymised by the unsubscribe page never appears, whatever the search and status |
| SubscribersManager.CountsAddUp | src/components/SubscribersManager.tsx:197-211 | the active and inactive cards add up to the total |
| SubscribersManager.SelectAllTwice | src/components/SubscribersManager.tsx:114-120 | "select all" twice from a partial selection selects everything, then nothing |
| SubscribersManager.CheckUncheck | src/components/SubscribersManager.tsx:258-263 | checking a box and unchecking it again restores a selection that did not hold the id |
| SubscribersManager.CsvReadsBack | src/components/SubscribersManager.tsx:72-80 | when no field holds a comma or newline, the CSV has one header line and one line per listed row, each splitting into its four fields |
| Blog.Transform | src/pages/AdminPanel.tsx:101-104 | fetching keeps one post per row |
| Blog.CategoryIds | src/pages/AdminPanel.tsx:247-256 | the ids of a post's categories, one per category, in order |
| Blog.NewLinks | src/pages/AdminPanel.tsx:161-164 | one link row per selected category |
| Blog.SomesSpec | src/pages/AdminPanel.tsx:104 | `filter(Boolean)` keeps the present categories in order and drops only the missing ones |
| Blog.TransformSpec | src/pages/AdminPanel.tsx:101-104 | fetching changes nothing in a post but its categories, which are the joined categories that are present, none when the join is absent |
| Blog.EmptySearchMatchesAll | src/pages/AdminPanel.tsx:53-65 | an empty search matches every post and every comment |
| Blog.SetFlagsSpec | src/pages/AdminPanel.tsx:200-228 | publishing or approving by id changes only the rows with that id and only that flag, and doing it twice is doing it once |
| Blog.ToggleTwice | src/pages/AdminPanel.tsx:205-222 | toggling from the value shown and toggling back restores the table |
| Blog.ReplaceLinksSpec | src/pages/AdminPanel.tsx:152-169 | with a non-empty selection the post's links become exactly the selection in order and other posts' links are kept; an empty selection keeps every link |
| Blog.RemoveSpec | src/pages/AdminPanel.tsx:188-191 | deleting by id removes every row with that id and keeps the others in order |
| Blog.Database.constructor | src/pages/AdminPanel.tsx:82-109 | the database holds the given tables |
| Blog.Database.SetPostPublished | src/pages/AdminPanel.tsx:204-207 | only the posts change, to the publish update |
| Blog.Database.EditPost | src/pages/AdminPanel.tsx:136-139 | only the posts change, to the edit by id |
| Blog.Database.InsertPost | src/pages/AdminPanel.tsx:143-148 | the posts gain the form's post at the end, with no categories; nothing else changes |
| Blog.Database.DeletePost | src/pages/AdminPanel.tsx:188-191 | only the posts change, losing the rows with that id |
| Blog.Database.SetCommentApproved | src/pages/AdminPanel.tsx:219-222 | only the comments change, to the approval update |
| Blog.Database.DeleteComment | src/pages/AdminPanel.tsx:235-238 | only the comments change, losing the rows with that id |
| Blog.Database.EditCategory | src/pages/AdminPanel.tsx:266-269 | only the categories change, to the edit by id |
| Blog.Database.InsertCategory | src/pages/AdminPanel.tsx:272-274 | the categories gain the form's category at the end; nothing else changes |
| Blog.Database.DeleteCategory | src/pages/AdminPanel.tsx:293-296 | only the categories change, losing the rows with that id |
| Blog.Database.SaveLinks | src/pages/AdminPanel.tsx:152-169 | only the post-category links change, to the replacement for that post |
| Slugs.SkipRun | src/components/CategoriesManager.tsx:82 | what is left after a leading run is a suffix that does not start in the run |
| Slugs.CollapseChars | src/components/EnhancedBlogEditor.tsx:56-57 | a collapsed string holds only `-` and input characters outside the class |
| Slugs.CollapseNoDouble | src/components/EnhancedBlogEditor.tsx:57 | collapsing runs that include `-` never leaves two hyphens in a row |
| Slugs.CollapseIdentity | src/components/EnhancedBlogEditor.tsx:57 | a string whose class characters are already lone hyphens is left as it is |
| Slugs.EditorSlugShape | src/components/EnhancedBlogEditor.tsx:52-59 | the editor slug uses only `[a-z0-9-]`, never two hyphens in a row, and the closing `trim` never changes it |
| Slugs.EditorSlugFixed | src/components/EnhancedBlogEditor.tsx:52-59 | a `[a-z0-9-]` string without a double hyphen is its own editor slug |
| Slugs.EditorSlugIdempotent | src/components/EnhancedBlogEditor.tsx:52-59 | generating a slug from a generated slug gives it back |
| Slugs.EditorSlugEdges | src/components/EnhancedBlogEditor.tsx:55-58 | a title starting (ending) with whitespace gives a slug starting (ending) with `-`, because `trim` runs after whitespace has become hyphens |
| Slugs.CategorySlugShape | src/components/CategoriesManager.tsx:81-83 | the category slug uses only `[a-z0-9-]`, never two hyphens in a row, and neither starts nor ends with a hyphen |
| Slugs.CollapseAlnum | src/components/CategoriesManager.tsx:82 | collapsing the runs outside `[a-z0-9]` keeps the letters and digits in order |
| Slugs.CategorySlugKeepsAlnum | src/components/CategoriesManager.tsx:81-83 | the category slug holds all the lower-cased letters and digits of the name, in order; a name without any gives the empty slug |
| Slugs.CategorySlugIdempotent | src/components/CategoriesManager.tsx:81-83 | generating a category slug from a category slug gives it back |
| Slugs.SanitiseSpec | src/components/EnhancedBlogEditor.tsx:225 | the slug input keeps exactly the `[a-z0-9-]` characters of the lower-cased text, in order, and a second pass changes nothing |
| Slugs.GeneratedSlugsSanitised | src/components/EnhancedBlogEditor.tsx:225 | both generated slugs pass the slug input unchanged |
| CommentsManager.Offered | src/components/CommentsManager.tsx:204-225 | a pending comment offers approve, an approved one reject, never both, and every comment offers delete |
| CommentsManager.Manager.constructor | src/components/CommentsManager.tsx:12-13 | the manager starts with an empty search and status `all` |
| CommentsManager.Manager.Moderate | src/components/CommentsManager.tsx:26-60 | without a client nothing happens; an answered update sets `approved` on that comment, toasts and refreshes; a failed one only shows its error; other tables are untouched |
| CommentsManager.Manager.DeleteComment | src/components/CommentsManager.tsx:62-78 | without a client or confirmation nothing happens; an answered delete removes the comment, toasts and refreshes; a failed one only shows the error |
| CommentsManager.VisibleSpec | src/components/CommentsManager.tsx:16-24 | the list is an order-preserving sublist holding exactly the comments matching the search on name, email or content and the status |
| CommentsManager.StatusFilter | src/components/CommentsManager.tsx:20-22 | `approved` keeps approved comments only, `pending` unapproved ones only, and an empty search under `all` keeps everything |
| CommentsManager.CountsAddUp | src/components/CommentsManager.tsx:80 | the pending and approved counters add up to the total |
| CommentsManager.ModerateSpec | src/components/CommentsManager.tsx:26-60 | moderation changes only the `approved` flag of rows with that id, is idempotent, and the comment then offers the opposite action |
| AdminPanel.FormOf | src/pages/AdminPanel.tsx:249-252 | the edit form takes the post's title and published flag, and its excerpt and image with a missing one as `''` |
| AdminPanel.CategoryFormOf | src/pages/AdminPanel.tsx:307-310 | the category form takes the category's name, slug and colour, and its description with a missing one as `''` |
| AdminPanel.Panel.constructor | src/pages/AdminPanel.tsx:25-44 | the panel starts with empty lists and forms, nothing being edited, no form shown, loading |
| AdminPanel.Panel.FetchData | src/pages/AdminPanel.tsx:82-115 | each list becomes its query's rows, or empty when that query failed, posts with flattened categories; without a client or on a thrown wait only `loading` changes; loading always ends |
| AdminPanel.Panel.SetSearchQuery | src/pages/AdminPanel.tsx:349 | typing sets the search and leaves the lists alone |
| AdminPanel.Panel.SubmitPost | src/pages/AdminPanel.tsx:118-181 | without a client or on a failed write the alert is added and nothing else changes; otherwise the edited post is updated or the new one inserted, its links are replaced, the form is reset and the data refetched |
| AdminPanel.Panel.TogglePostPublished | src/pages/AdminPanel.tsx:200-213 | an answered update writes the negation of the flag the row showed and refetches; otherwise nothing changes |
| AdminPanel.Panel.ApproveComment | src/pages/AdminPanel.tsx:215-228 | the approve button toggles: an answered update writes the negation of the shown flag and refetches |
| AdminPanel.Panel.DeletePost | src/pages/AdminPanel.tsx:183-198 | a confirmed, answered delete removes the post and refetches; anything else changes nothing and is only logged |
| AdminPanel.Panel.DeleteComment | src/pages/AdminPanel.tsx:230-245 | a confirmed, answered delete removes the comment and refetches; anything else changes nothing |
| AdminPanel.Panel.DeleteCategory | src/pages/AdminPanel.tsx:288-303 | a confirmed, answered delete removes the category and refetches; anything else changes nothing |
| AdminPanel.Panel.EditPost | src/pages/AdminPanel.tsx:247-256 | the form, content and selection come from the post, and the form opens |
| AdminPanel.Panel.NewPost | src/pages/AdminPanel.tsx:402-407 | "New Post" clears the form and content and opens it, but keeps the category selection |
| AdminPanel.Panel.CancelPost | src/pages/AdminPanel.tsx:511-517 | Cancel closes the form and clears everything, the selection included |
| AdminPanel.Panel.SetCategoryChecked | src/pages/AdminPanel.tsx:475-481 | checking a category appends its id; unchecking removes every copy of it |
| AdminPanel.Panel.EditCategory | src/pages/AdminPanel.tsx:305-312 | the category form comes from the category, and it opens |
| AdminPanel.Panel.ResetCategoryForm | src/pages/AdminPanel.tsx:681-685 | "New Category" and Cancel both clear the category form and differ only in whether it shows |
| AdminPanel.Panel.SubmitCategory | src/pages/AdminPanel.tsx:258-286 | without a client or on a failed write the alert is added and nothing changes; otherwise the edited category is updated or one is inserted, the form is reset and the data refetched |
| AdminPanel.FilteredSpec | src/pages/AdminPanel.tsx:52-71 | each filtered list is an order-preserving sublist holding exactly the rows matching the lower-cased search |
| AdminPanel.EmptySearchKeepsAll | src/pages/AdminPanel.tsx:52-71 | an empty search keeps every post, comment and subscriber |
| AdminPanel.EditThenSaveKeepsCategories | src/pages/AdminPanel.tsx:152-169 | editing a post with categories and saving it at once gives it back exactly the categories it was loaded with |
| AdminContent.Restored | src/components/AdminContent.tsx:51-56 | a stored non-empty string replaces the tab, unchecked; a missing or empty one keeps the current tab |
| AdminContent.Dashboard.constructor | src/components/AdminContent.tsx:43-66 | the dashboard starts on `posts` with empty lists and forms, loading |
| AdminContent.Dashboard.RestoreTab | src/components/AdminContent.tsx:51-56 | on mount the tab becomes what the saved value decides |
| AdminContent.Dashboard.ChangeTab | src/components/AdminContent.tsx:58-61 | changing tab shows it and stores the same value |
| AdminContent.Dashboard.FetchData | src/components/AdminContent.tsx:93-137 | as on the stand-alone page: each list is its query's rows or empty; the extra logged query changes nothing |
| AdminContent.Dashboard.SetSearchQuery | src/components/AdminContent.tsx:72-91 | typing sets the search and leaves the lists and the tab alone |
| AdminContent.Dashboard.PendingBadge | src/components/AdminContent.tsx:293 | the pending badge never exceeds the number of comments |
| AdminContent.Dashboard.SubmitPost | src/components/AdminContent.tsx:139-192 | the same save as on the stand-alone page: update or insert, link replacement, form reset and refetch on success, an alert on failure |
| AdminContent.Dashboard.DeletePost | src/components/AdminContent.tsx:194-202 | the reply's error is not checked: an answered delete refetches even when it failed; only a rejected call skips the refetch |
| AdminContent.Dashboard.TogglePostPublished | src/components/AdminContent.tsx:204-212 | writes the negation of the shown flag; errors are handled as in the delete |
| AdminContent.Dashboard.EditPost | src/components/AdminContent.tsx:214-223 | the form, content and selection come from the post, and the form opens |
| AdminContent.Dashboard.Add | src/components/AdminContent.tsx:367-385 | on `posts` the post form opens cleared; on `categories` the category form opens; the selection is kept |
| AdminContent.Dashboard.ClosePost | src/components/AdminContent.tsx:427-432 | the close and Cancel buttons close and clear the post form but keep the selection |
| AdminContent.EditCloseAddSave | src/components/AdminContent.tsx:173-223 | editing a post with categories, cancelling, adding a post and saving it links the new post to the edited post's categories |
| AdminContent.TabSurvivesReload | src/components/AdminContent.tsx:51-61 | a stored tab comes back after a reload, and any other non-empty stored string, a name of no view included, is adopted too |
| AdminContent.BadgeAndApprovedAddUp | src/components/AdminContent.tsx:293 | the pending badge and the approved count add up to the number of comments |
| CategoriesManager.Manager.constructor | src/components/CategoriesManager.tsx:20-23 | the manager starts with the form hidden, empty, and nothing being edited |
| CategoriesManager.Manager.TypeName | src/components/CategoriesManager.tsx:135-137 | typing a name overwrites the slug with the name's generated slug |
| CategoriesManager.Manager.EditCategory | src/components/CategoriesManager.tsx:72-79 | the form gets the category's fields, a missing description as `''`, and opens |
| CategoriesManager.Manager.ResetForm | src/components/CategoriesManager.tsx:95-118 | "Add Category" and the close button both clear the form and differ only in whether it shows |
| CategoriesManager.Manager.Submit | src/components/CategoriesManager.tsx:30-57 | without a client nothing happens; an answered write updates the edited category or inserts one, with the matching toast, then resets and refreshes; a failed write only shows the error |
| CategoriesManager.Manager.DeleteCategory | src/components/CategoriesManager.tsx:59-70 | the reply's error is not checked: an answered call reports success even when nothing was deleted; only a rejected call shows the error |
| CategoriesManager.EditCategoriesSpec | src/components/CategoriesManager.tsx:35-38 | updating by id rewrites the matching rows from the form, keeping their id, and leaves every other row |
| CategoriesManager.EditRoundTrip | src/components/CategoriesManager.tsx:35-79 | editing a category and saving the unchanged form writes it back, a missing description stored as `''` |
| Editor.Editor.constructor | src/components/EnhancedBlogEditor.tsx:30-48 | the editor holds the given title, slug and images, with an empty image form at position `top` |
| Editor.Editor.HandleTitleChange | src/components/EnhancedBlogEditor.tsx:61-66 | the title changes, and the slug follows it only when not editing |
| Editor.Editor.TypeSlug | src/components/EnhancedBlogEditor.tsx:225 | the slug field keeps the sanitised input |
| Editor.Editor.AddImage | src/components/EnhancedBlogEditor.tsx:68-82 | a blank URL does nothing; otherwise one image goes at the end, named by the clock, with the default alt text when none was given, and the form resets |
| Editor.Editor.RemoveImage | src/components/EnhancedBlogEditor.tsx:84-86 | the images lose those with that id |
| Editor.Editor.UpdateImagePosition | src/components/EnhancedBlogEditor.tsx:88-92 | the images with that id move to the position |
| Editor.ImagesAtSpec | src/components/EnhancedBlogEditor.tsx:118 | the images at a position are, in order, exactly the images placed there |
| Editor.WithoutImageSpec | src/components/EnhancedBlogEditor.tsx:85 | removing drops every image with that id and keeps the others in order |
| Editor.AddThenRemove | src/components/EnhancedBlogEditor.tsx:78-85 | adding an image with a new id and removing it restores the list |
| Editor.RepositionedSpec | src/components/EnhancedBlogEditor.tsx:89-91 | repositioning keeps length, order and each image's id, URL and alt, moves exactly the images with that id, and is idempotent |
| CommentItem.RowOf | src/components/CommentItem.tsx:47-78 | a row is indented exactly below the top level; thumbs-up is lit exactly when the reader's vote is `true`, thumbs-down exactly when it is `false`, never both; a missing count shows 0 |
| CommentItem.Item.constructor | src/components/CommentItem.tsx:22-24 | an item starts with no email, no prompt and no remembered vote |
| CommentItem.Item.HandleLikeAction | src/components/CommentItem.tsx:26-33 | without an email the vote is remembered and the prompt opens; with one the vote is cast at once |
| CommentItem.Item.TypeEmail | src/components/CommentItem.tsx:102 | typing sets the email and nothing else |
| CommentItem.Item.SubmitEmailAndAction | src/components/CommentItem.tsx:35-41 | with a remembered vote and an email the vote is cast once and the prompt closes; otherwise nothing changes |
| CommentItem.Item.Cancel | src/components/CommentItem.tsx:113-117 | Cancel closes the prompt and forgets the vote and the email |
| CommentItem.RenderSpec | src/components/CommentItem.tsx:126-140 | a thread renders one row per comment: first the comment at its level, then every reply deeper and indented |
| CommentItem.RenderAllSpec | src/components/CommentItem.tsx:127-138 | a list of threads renders one row per comment, none above the given level, indented exactly when below the top |
| PostLikeButton.LikeTable.Insert | src/components/PostLikeButton.tsx:76-81 | the like table gains the row at its end |
| PostLikeButton.LikeTable.DeleteWhere | src/components/PostLikeButton.tsx:66-70 | the like table loses the rows of that post and address |
| PostLikeButton.Toggled | src/components/PostLikeButton.tsx:72-84 | a click that got through flips the flag and moves the counter by one in the matching direction |
| PostLikeButton.Button.constructor | src/components/PostLikeButton.tsx:10-13 | the button starts with the initial count, not liked, no address |
| PostLikeButton.Button.SetUserIp | src/components/PostLikeButton.tsx:17-20 | the address becomes the lookup's answer, or `unknown` when it failed |
| PostLikeButton.Button.CheckUserLike | src/components/PostLikeButton.tsx:27-43 | without a client or address nothing changes; otherwise the flag says whether a row was found, and a thrown lookup clears it |
| PostLikeButton.Button.FetchLikes | src/components/PostLikeButton.tsx:45-58 | the counter becomes the count, 0 when missing; a thrown call changes nothing |
| PostLikeButton.Button.Mount | src/components/PostLikeButton.tsx:15-25 | on mount the like check runs before any address has arrived and does nothing; the count is fetched |
| PostLikeButton.Button.HandleLike | src/components/PostLikeButton.tsx:60-89 | without a client or address, or on a thrown call, nothing changes; otherwise the row is deleted or inserted and counter and flag flip, even on an unchecked answered error |
| PostLikeButton.ToggleTwice | src/components/PostLikeButton.tsx:64-84 | liking and unliking restores the counter and the flag |
| PostLikeButton.LikeUnlikeRestoresTable | src/components/PostLikeButton.tsx:64-84 | liking and unliking with the same address restores the table when the address had not liked the post |
| PostLikeButton.UnlikedSpec | src/components/PostLikeButton.tsx:66-70 | unliking removes every row of that post and address and keeps the others in order |
| ImageUpload.Uploader.constructor | src/components/ImageUpload.tsx:11-12 | the uploader starts not highlighted and not uploading |
| ImageUpload.Uploader.HandleDrag | src/components/ImageUpload.tsx:15-23 | entering or hovering lights the zone, leaving darkens it, other events change nothing |
| ImageUpload.Uploader.HandleFile | src/components/ImageUpload.tsx:42-70 | a rejected file only raises its alert; an accepted one starts the upload, which ends with the failure alert when the reader throws |
| ImageUpload.Uploader.OnLoad | src/components/ImageUpload.tsx:59-63 | the reader's data URL goes to the parent and the upload ends |
| ImageUpload.Uploader.HandleDrop | src/components/ImageUpload.tsx:25-33 | a drop turns the highlight off and handles only the first file |
| ImageUpload.Uploader.HandleChange | src/components/ImageUpload.tsx:35-40 | the file input, disabled while uploading, handles only the first chosen file |
| ImageUpload.Uploader.RemoveImage | src/components/ImageUpload.tsx:72-74 | the remove button hands the parent an empty image |
| ImageUpload.Uploader.TypeUrl | src/components/ImageUpload.tsx:141 | every typed URL goes straight to the parent |
| ImageUpload.RejectionSpec | src/components/ImageUpload.tsx:43-51 | a file goes ahead exactly when its type starts with `image/` and it is at most 5 MB; a file failing both gets the type alert |
| ImageUpload.SizeBoundary | src/components/ImageUpload.tsx:48 | the limit is inclusive: exactly 5 MiB is accepted, one byte more is refused |
| ImageUpload.TypeBoundary | src/components/ImageUpload.tsx:43 | only types with the full `image/` prefix pass |
| Analytics.GetPostAnalytics | src/lib/analytics.ts:207-248 | the per-post record is `null` exactly when there is no client or the query fails, and otherwise names the requested post |
| Analytics.Counted | src/lib/analytics.ts:276-282 | the accumulator's entries are as many as the distinct keys |
| Analytics.Tally | src/lib/analytics.ts:276-282 | the key-by-key reduce (new key set to 1, known key incremented, entries read back in insertion order) yields exactly the counted entries |
| Analytics.InsertByCount | src/lib/analytics.ts:283 | one insertion step of the descending sort grows the list by one |
| Analytics.SortByCount | src/lib/analytics.ts:283 | the descending sort by count keeps the number of entries |
| Analytics.ReferrerUrls | src/lib/analytics.ts:275 | one referrer URL per row whose referrer is non-empty |
| Analytics.SearchKeys | src/lib/analytics.ts:287-289 | one lower-cased query per search row that carries a query |
| Analytics.GetOverallAnalytics | src/lib/analytics.ts:251-316 | `null` without a client, when the query fails, or exactly when some referrer URL does not parse; otherwise the totals, visitor count, top-five referrer hosts and searches and recent activity built from the rows |
| Analytics.SessionsSpec | src/lib/analytics.ts:219-272 | the session set holds exactly the rows' session ids, is no larger than the rows and is empty only for no rows |
| Analytics.RoundedMeanSpec | src/lib/analytics.ts:226-242 | `Math.round` of the mean is the nearest whole number, halves rounding up |
| Analytics.PostAnalyticsSpec | src/lib/analytics.ts:218-242 | views, likes, comments and shares count exactly their event types; unique views never exceed views and are 0 only when views are; the averages are 0 when no row carries the metric |
| Analytics.OverallSpec | src/lib/analytics.ts:272-310 | the visitor count is at most the number of rows and 0 only for no rows; recent activity is the first twenty rows |
| Analytics.InsertByCountElems | src/lib/analytics.ts:283 | an insertion step is a permutation of the old entries plus the new one |
| Analytics.InsertByCountSorted | src/lib/analytics.ts:283 | inserting into a list sorted by descending count keeps it sorted |
| Analytics.InsertByCountKeys | src/lib/analytics.ts:283 | inserting an entry with a new key keeps keys distinct |
| Analytics.SortByCountSpec | src/lib/analytics.ts:282-295 | the sort yields descending counts and is a permutation of its input |
| Analytics.SortByCountKeys | src/lib/analytics.ts:282-283 | sorting keeps distinct keys distinct |
| Analytics.CountedSpec | src/lib/analytics.ts:276-292 | each key occurring in the input appears once, with its true number of occurrences, and no other key appears |
| Analytics.TopFiveSpec | src/lib/analytics.ts:282-296 | the top list has min(5, distinct keys) entries, sorted by count with distinct keys, each with its key's true count |
| Analytics.TopFiveLeftOut | src/lib/analytics.ts:282-284 | a key left out of the top five occurs no more often than any key shown |
| AnalyticsChart.Tick | src/components/AnalyticsChart.tsx:19-23 | one row raises at most one counter of its day's bucket by one, and the total is the sum of the counters |
| AnalyticsChart.Days | src/components/AnalyticsChart.tsx:14 | one day per row |
| AnalyticsChart.Group | src/components/AnalyticsChart.tsx:13-26 | the reduce over rows into day buckets yields exactly the grouped buckets |
| AnalyticsChart.ChartData | src/components/AnalyticsChart.tsx:28 | the chart is the last seven buckets, or all of them when there are fewer |
| AnalyticsChart.MaxValue | src/components/AnalyticsChart.tsx:29 | the scale is at least 1, at least every total shown, and is either 1 or some shown total |
| AnalyticsChart.BucketOfAbsent | src/components/AnalyticsChart.tsx:15-17 | a day with no rows has the all-zero bucket |
| AnalyticsChart.BucketSpec | src/components/AnalyticsChart.tsx:14-23 | a day's bucket counts exactly that day's rows of each charted type, and its total is their sum |
| AnalyticsChart.GroupedSpec | src/components/AnalyticsChart.tsx:13-28 | one bucket per distinct day, in order of first appearance, each the day's true bucket, no day twice and no day without rows |
| AnalyticsChart.TotalOverStep | src/components/AnalyticsChart.tsx:19-23 | one more row adds one to the totals of a set of distinct days exactly when it is charted and on one of them |
| AnalyticsChart.TotalOverDays | src/components/AnalyticsChart.tsx:13-26 | the totals over the distinct days count every charted row once |
| AnalyticsChart.SumTotalsOver | src/components/AnalyticsChart.tsx:23 | summing the buckets' totals is summing the days' totals |
| AnalyticsChart.TotalsAddUp | src/components/AnalyticsChart.tsx:13-26 | the bucket totals add up to the number of charted rows: no row is lost or counted twice |
| AnalyticsChart.ChartSpec | src/components/AnalyticsChart.tsx:28-29 | no rows gives an empty chart with scale 1; any rows give a non-empty chart; the scale bounds every total shown |
| Lists.Filter | src/components/SubscribersManager.tsx:21-33 | a filtered list is never longer than its input |
| Lists.FilterSpec | src/lib/analytics.ts:218-222 | a filter keeps exactly the passing elements, in their order, and its length is their count |
| Lists.CountSplit | src/components/CommentsManager.tsx:80 | the elements passing a test and those passing its complement add up to the whole list |
| Lists.FilterAll | src/components/SubscribersManager.tsx:21-33 | a filter every element passes changes nothing |
| Lists.FilterNone | src/lib/analytics.ts:225-232 | a filter no element passes leaves nothing |
| Lists.FilterConcat | src/components/CommentsManager.tsx:80 | filtering distributes over concatenation |
| Lists.FilterEnds | src/components/SubscribersManager.tsx:21-33 | a passing first or last element is kept at that end; a failing one is dropped |
| Lists.FilterIdempotent | src/components/SubscribersManager.tsx:21-33 | filtering twice with the same test changes nothing more |
| Lists.MapAllSpec | src/lib/analytics.ts:275-280 | a map whose every call may throw succeeds exactly when every element does, and then holds each element's result in place |
| Lists.MapWhere | src/components/SubscribersManager.tsx:39-42 | an update of the selected rows keeps the length, applies the update to exactly the selected rows and leaves the others as they were |
| Lists.MapWhereTwice | src/pages/UnsubscribePage.tsx:33-41 | repeating an update that keeps its rows selected and is idempotent on them changes nothing more |
| Lists.DedupSpec | src/lib/analytics.ts:219-272 | removing duplicates keeps exactly the elements of the input, each once, and never lengthens it |
| Lists.OccurrencesSpec | src/lib/analytics.ts:278-290 | a key occurs at least once exactly when it is in the list, and at most as many times as the list is long |
| Utils.SplitSpaces | src/lib/utils.ts:4 | splitting at runs of whitespace always gives at least one piece |
| Utils.SplitSpacesPieces | src/lib/utils.ts:4 | no piece holds whitespace, and a text without whitespace is exactly one piece |
| Utils.SplitSpacesFirst | src/lib/utils.ts:4 | the first piece is empty exactly when the text is empty or starts with whitespace |
| Utils.SplitSpacesLast | src/lib/utils.ts:4 | the last piece is empty exactly when the text is empty or ends with whitespace |
| Utils.SplitSpacesInterior | src/lib/utils.ts:4 | every piece between the first and the last is non-empty |
| Utils.SplitSpacesWord | src/lib/utils.ts:4 | a word, one space and the rest split into the word followed by the rest's pieces |
| Utils.SplitSpacesJoin | src/lib/utils.ts:4 | non-empty whitespace-free words joined by single spaces split back into exactly those words |
| Utils.SplitNoSpaces | src/lib/utils.ts:4 | a whitespace-free text is a single piece |
| Utils.ReadingTimeSpec | src/lib/utils.ts:2-6 | the reading time is the piece count of the tag-stripped text divided by 200 and rounded up, and so at least one minute |
| Utils.ReadingTimeOfWords | src/lib/utils.ts:2-6 | n plain words read in ceil(n / 200) minutes: 200 words take one minute and 201 take two |
| Utils.TagNotCounted | src/lib/utils.ts:4 | a tag in front of the text adds nothing to the estimate |
| Utils.AssembledReadsBack | src/lib/utils.ts:10-23 | a link built from name/value pairs with every value percent-encoded reads back as exactly those pairs, values decoded, in order |
| Utils.TwitterReadsBack | src/lib/utils.ts:10-11 | the Twitter link carries exactly the page URL and the title |
| Utils.FacebookReadsBack | src/lib/utils.ts:13-14 | the Facebook link carries exactly the page URL |
| Utils.LinkedInReadsBack | src/lib/utils.ts:16-17 | the LinkedIn link carries exactly the page URL, the title and the summary |
| Utils.RedditReadsBack | src/lib/utils.ts:19-20 | the Reddit link carries exactly the page URL and the title |
| Utils.EmailReadsBack | src/lib/utils.ts:22-23 | the e-mail link carries the title as subject and the body, a blank line and the URL as body |
| Breadcrumbs.UpperChar | src/components/Breadcrumbs.tsx:17 | a lower-case ASCII letter is raised to upper case; every other character is kept |
| Breadcrumbs.Capitalised | src/components/Breadcrumbs.tsx:17 | the label has the segment's length, its first character upper-cased and the rest unchanged |
| Breadcrumbs.Trail | src/components/Breadcrumbs.tsx:7-25 | the root gives no trail; any other path gives Home plus one item per segment |
| Breadcrumbs.Build | src/components/Breadcrumbs.tsx:11-25 | the loop pushing one item per segment after Home builds exactly the trail |
| Breadcrumbs.Rendered | src/components/Breadcrumbs.tsx:29-45 | one rendered entry per item |
| Breadcrumbs.SplitAllSlashes | src/components/Breadcrumbs.tsx:7 | splitting a text made only of slashes gives only empty pieces |
| Breadcrumbs.SegmentsSpec | src/components/Breadcrumbs.tsx:7-9 | the segments are non-empty and slash-free, and there are none exactly when the path is only slashes |
| Breadcrumbs.TrailSpec | src/components/Breadcrumbs.tsx:11-25 | the trail starts at Home, item i is labelled from segment i, and its path splits back into the first i segments |
| Breadcrumbs.TrailPrefixes | src/components/Breadcrumbs.tsx:16 | each item's path is a prefix of the next one's |
| Breadcrumbs.PathSegments | src/components/Breadcrumbs.tsx:16 | the path of the first k segments splits back into exactly those segments |
| Breadcrumbs.RenderedSpec | src/components/Breadcrumbs.tsx:32-43 | in a trail of two or more items only the last is plain text; all others are links |
| Breadcrumbs.NamedSectionsCapitalised | src/components/Breadcrumbs.tsx:20-21 | the two named sections get the label capitalisation would give them anyway |
| Seo.AutoSeo | src/hooks/useAutoSEO.ts:3-26 | the hook does something exactly when the post id and title are both given and non-empty; it then pings `/sitemap.xml` after 2000 ms and logs three lines, the second naming the post's blog address |
| Seo.FullTitleSpec | src/components/SEO.tsx:27-28 | the document title always names the site, equals the title exactly when the title already names it, and applying the rule twice changes nothing |
| Seo.ContentsConcat | src/components/SEO.tsx:31-64 | the property contents of a head written in two parts are those of each part in turn |
| Seo.BasicHasNoArticleTags | src/components/SEO.tsx:33-50 | the basic, Open Graph and Twitter tags hold no `article:` property |
| Seo.SingleNamed | src/components/SEO.tsx:39-44 | a head with exactly one property tag of a name yields that tag's content alone |
| Seo.BasicContents | src/components/SEO.tsx:39-40 | the basic tags carry the full title and the page type once each |
| Seo.HeadContents | src/components/SEO.tsx:31-90 | the head's property contents are those of the basic tags, then the article tags, then the tags list; the script adds none |
| Seo.ArticleContents | src/components/SEO.tsx:53-61 | `article:author` appears on articles only; each time appears once on articles only, when given and non-empty; no other name comes from these tags |
| Seo.HeadSpec | src/components/SEO.tsx:28-64 | the head starts with the full title, carries `og:title` and `og:type` once, one `article:tag` per tag in order on any page type, and the article tags only on articles |
| Seo.StructuredSpec | src/components/SEO.tsx:67-89 | the JSON-LD object is a BlogPosting exactly for an article, its headline is the raw title, only a website gets a name and search action, and a date appears exactly when given and non-empty |
| Seo.SummarySpec | src/hooks/useAutoSEO.ts:33 | a non-empty excerpt is used as is; otherwise the description is a tag-free prefix of the stripped content, at most 160 characters and exactly 160 when there is that much |
| Seo.StructuredDataSpec | src/hooks/useAutoSEO.ts:28-54 | the posting object takes headline, image and dates from the post, its page id is the blog address followed by the post id, and author, publisher and logo are the same for every post |
| BlogSsr.Handle | supabase/functions/blog-ssr/index.ts:9-85 | every response is 200, 404 or 500 |
| BlogSsr.SlugSpec | supabase/functions/blog-ssr/index.ts:16 | the slug is the last path segment, and empty when the path ends with a slash |
| BlogSsr.SlugHasNoSlash | supabase/functions/blog-ssr/index.ts:16 | the slug never holds a slash |
| BlogSsr.HandleSpec | supabase/functions/blog-ssr/index.ts:10-77 | a preflight request is answered `ok` whatever the path and data; any other request answers 404 with `Post not found` exactly when no published post has the slug, and the page as HTML when one has |
| BlogSsr.PageOfTitle | supabase/functions/blog-ssr/index.ts:34-39 | the page starts with its fixed lead and holds the title element with the raw title |
| BlogSsr.PageOfDescription | supabase/functions/blog-ssr/index.ts:40 | the page holds the description: the excerpt, or the first 160 characters of the stripped content |
| BlogSsr.PageOfBody | supabase/functions/blog-ssr/index.ts:69-73 | the page holds the heading with the raw title and ends with the raw content and the closing tags |
| BlogSsr.PageOfCanonical | supabase/functions/blog-ssr/index.ts:42 | the page holds the canonical address: the blog address followed by the post's slug |
| BlogSsr.ErrorBodySpec | supabase/functions/blog-ssr/index.ts:79-84 | the 500 body reads back as an object whose `error` is the message, or `{}` when there is no message |
| Sitemaps.PostEntries | src/lib/sitemap.ts:23-30 | one entry per post |
| Sitemaps.AppendPosts | src/lib/sitemap.ts:23-30 | the loop pushing one entry per post appends exactly the posts' entries to the list |
| Sitemaps.CollectEntries | src/lib/sitemap.ts:6-35 | the list built before serialising is exactly the site's entries |
| Sitemaps.UrlElements | src/lib/sitemap.ts:39-45 | when every date is valid there is one element per entry |
| Sitemaps.ScriptEntries | generate-sitemap.js:10-30 | the script's list is the five static routes followed by one entry per id, without `lastmod` |
| Sitemaps.ScriptUrls | generate-sitemap.js:34-38 | one element per entry |
| Sitemaps.BlogUrls | blog/pages/sitemap.xml.tsx:12-23 | when every date is valid there is one element per post |
| Sitemaps.ServeIn | blog/pages/sitemap.xml.tsx:44-47 | a failure answers 500 with an empty body and no content type |
| Sitemaps.EntriesSpec | src/lib/sitemap.ts:6-35 | the entries are the five static routes in order, then, when the query answers rows, one per post in query order at `/blog/<id>`, priority 0.7, weekly, dated by `updated_at` |
| Sitemaps.ConcatIncludes | src/lib/sitemap.ts:39-45 | each element of a concatenation occurs in it |
| Sitemaps.UrlElementsSpec | src/lib/sitemap.ts:39-45 | the elements exist exactly when every present `lastmod` is a valid date, and they are the entries' elements in order |
| Sitemaps.UrlElementSpec | src/lib/sitemap.ts:40-45 | an absent or empty `lastmod` adds nothing; a present one adds exactly the `<lastmod>` element with the date part, just before the closing indentation |
| Sitemaps.UrlHeadLoc | src/lib/sitemap.ts:41 | each element locates the site address followed by the route |
| Sitemaps.SiteSitemapSpec | src/lib/sitemap.ts:37-48 | the sitemap is written exactly when every date is valid; it starts with the header, ends with the footer and holds every entry's element |
| Sitemaps.LayoutsDeclare | src/lib/sitemap.ts:37-38 | each layout starts with the XML declaration and opens a `urlset` in the sitemaps.org 0.9 namespace |
| Sitemaps.ScriptEntriesSpec | generate-sitemap.js:10-30 | the script lists the five static routes then one entry per id at `/blog/<id>`, priority 0.7, weekly, no `lastmod`; its list as shipped has six entries |
| Sitemaps.JoinIncludes | generate-sitemap.js:34-38 | each joined element occurs in the join |
| Sitemaps.ScriptSitemapSpec | generate-sitemap.js:32-39 | the file starts with the header and holds one element per entry, each locating its route on the site |
| Sitemaps.BlogUrlsSpec | blog/pages/sitemap.xml.tsx:12-23 | the blog's elements exist exactly when every post's date is valid, one per post in order |
| Sitemaps.BlogUrlSpec | blog/pages/sitemap.xml.tsx:15-17 | a post's element locates it by slug under the blog and carries its date |
| Sitemaps.ServeSpec | blog/pages/sitemap.xml.tsx:32-52 | a throwing fetch or an invalid date answers 500 with an empty body; otherwise the XML starts with the header and holds every post's element, with no posts treated as none |
| Sitemaps.DatePartSpec | src/lib/sitemap.ts:44 | the date part of an ISO timestamp is what precedes its `T` |

## Left out

- Breadcrumbs.UpperChar: `toUpperCase` is modelled on ASCII letters only. Full Unicode case mapping, where one character can become several (`ß` becomes `SS`) and change the label's length, is out of scope.
- Text.Lower: `toLowerCase` is modelled on ASCII letters only. Full Unicode case mapping is out of scope. Searches, slugs and search tallies inherit this.
- Text and Uri: strings are sequences of code points. JavaScript's UTF-16 code units and lone surrogates are not modelled, and `encodeURIComponent`'s `URIError` on a lone surrogate cannot arise.
- Json.ParseStringify:
  - the JSON model covers flat objects of strings, integers, booleans and null, plus top-level scalars;
  - nested values, fractions and exponents parse as failures;
  - `exp` strings other than optionally signed digit runs convert to `NaN`.
- Jwt: the secret and the clock reading are parameters. Reading the admin password from the environment is not part of this model.
- Dates:
  - `new Date(...).toLocaleDateString()` is the precomputed `day` of an analytics row;
  - `toISOString` is the `toIso` parameter;
  - `Date.now()` is a parameter wherever it is read.
- Database and network: every query, insert, update and delete is modelled by its effect on the in-memory table and by a `Reply` parameter.
  - Not modelled: connection handling, row-level security, the ordering a query requests (rows arrive in the order given), and concurrent writers.
- Refreshes: the `onRefresh` callbacks and re-fetches after a write are counted, not re-run. Toasts and `alert` messages are recorded as values.
- Rendering:
  - JSX layout, CSS classes and animations are not modelled;
  - the Helmet head is a list of tags;
  - the newsletter preview is not rendered;
  - the JSON-LD, XML and HTML the model writes are not parsed back.
- SubscribersManager.Manager.ExportSubscribers: builds the CSV text. The Blob download and object URL are browser I/O and are left out.
- NewsletterComposer.Composer.SendNewsletter:
  - the HTTP request to the mail endpoint is the `Response` parameter;
  - the request body is the `Request` value, not serialised;
  - the mail endpoint itself (api/send-newsletter.js) is not part of this model.
- Blog: deleting a category does not model the database's cascade on `post_categories`.
- Blog.Database.SaveLinks: the code does not check the errors of the `post_categories` delete and insert after a saved post, and the model applies both as succeeding. A failure of either, which would leave links half replaced, is not modelled.
- AdminPanel:
  - `checkAuth` and the redirect to login are left out (session storage and navigation);
  - the tab buttons only select what is shown and are left out;
  - the forms' `register`/`onChange` wiring is taken as the values the handlers receive.
- Editor: inserting an image into the rich-text editor (`insertImageIntoContent`) acts on the editor widget and is left out. The image list it reads is modelled.
- ImageUpload.Uploader.OnLoad: the `FileReader` callback is a separate step taking the data URL. Interleavings of several pending reads are not modelled.
- PostLikeButton: the IP lookup (`fetch` to an external service) is the answer passed to `Button.SetUserIp`, with `None` for a failed fetch. When that answer settles relative to the like check is the caller's order of calls.
- Analytics: the `track*` functions (src/lib/analytics.ts:27-204, src/lib/utils.ts:26-71) are left out. They only insert rows, read `sessionStorage` and draw a random session id from `Math.random`.
- Analytics.GetOverallAnalytics: `new URL(referrer).hostname` is the `host` parameter. URL parsing is not modelled.
- Analytics.RoundedMeanSpec: durations and scroll percentages are whole numbers here. Fractional metadata values and `Math.round` on fractions are not modelled.
- Analytics.Counted: entries come back in order of first appearance. JavaScript lists integer-like keys (a search for `42`) first, in ascending order, and that is not modelled. Nor are keys the plain `{}` accumulator inherits from `Object.prototype`: a search for `constructor` starts from a function rather than `undefined`, and `__proto__` is swallowed; the model counts every key from zero.
- Analytics.SortByCount: the contracts state descending counts and a permutation. That ties keep their original order, as `Array.prototype.sort` guarantees, is not stated.
- AnalyticsChart: the SVG coordinates (`generatePath`) and the 300 ms animation timer are presentation and are left out.
- Utils.ReadParams: a reader for the share links, used only to state that the links read back. It splits at `&` and `=` and is not a full URL parser.
- Seo.AutoSeo: the timer, the `HEAD` request and the console output are returned as a value (`Ping`), not performed.
- BlogSsr.Handle:
  - a throwing `new URL`, client creation or null content folds into `BadUrl`/`Threw` with the error's message;
  - the CORS headers, identical on every response, are not modelled.
- Sitemaps: `fs.writeFileSync` and the console logs of generate-sitemap.js are left out. The model stops at the text written.

## Findings

| source | as written | input that shows it | evidently intended | confidence | as-written member | corrected member |
|---|---|---|---|---|---|---|
| src/components/NewsletterComposer.tsx:86 | the unsubscribe link is `origin + "/unsubscribe/" + token`, with the raw base64 token in the path | any subscriber, with a secret such as a short string ending in `?` that makes `btoa` emit `/` in the signature segment (src/lib/jwt.ts:11); the link then has an extra path segment and no longer matches `/unsubscribe/:token` (a route shape inferred from the page's `useParams`, since src/App.tsx declares no unsubscribe route) | percent-encode the token (`encodeURIComponent`), which the unsubscribe page already undoes with `decodeURIComponent` | medium, not executed | NewsletterComposer.RawLinkSplitsPath | NewsletterComposer.RecipientLinkAcceptedFixed |
