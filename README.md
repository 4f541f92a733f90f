# MIRROR research website: a Dafny model of its behavioural core

The site is a Next.js single page for a research project. Most of it is
animated presentation. This project models the parts that have behaviour one
can state:

- **`POST /api/contact`** (`app/api/contact/route.ts`). The only server
  logic.
  - It checks that the four form fields are present.
  - It checks the email against the fixed pattern `^[^\s@]+@[^\s@]+\.[^\s@]+$`.
  - It builds a stored record and appends it to the JSON file of contacts.
  - It answers 400, 201 or 500.
  - Model: class `ContactRoute.ContactEndpoint`, whose field `store` stands
    for that file. Its method `Post` follows the handler's early returns step
    by step. The pure function `ContactRoute.Handle` specifies the response
    and the new store. The email check is an explicit string predicate, proved
    equivalent to a literal reading of the pattern.
- **The gallery slideshow cursor** (`SlideShowSection.tsx`). Class
  `SlideShowSection.SlideShow` with next, previous, go-to and the interval
  tick. The update expressions are the functions `Next` and `Prev`, with
  their inverse, bounds and full-cycle lemmas.
- **The in-view hook** (`app/hooks/useInView.ts`). Class
  `UseInView.InViewObserver` holds `isInView` and whether the element is
  observed. It is driven by the `isIntersecting` values the observer
  reports. A ghost history ties the flag to `ViewAfter`:
  - with trigger-once, the flag is a monotone latch;
  - without it, the flag tracks the latest entry the callback reads.
- **The contact form's client state** (`ContactSection.tsx`). Class
  `ContactSection.ContactForm` holds the form fields, whether a submission is
  in flight, and the status message.
  - `handleSubmit` awaits `fetch` and then `response.json()`, and changes no
    state between the two. It is split into `BeginSubmit`, before the
    request, and `FinishSubmit`, once both have settled; `FinishSubmit`
    takes their result as a `FetchOutcome`.
  - A cross-component lemma connects the form to the route handler.
- **The header** (`Header.tsx`): the scroll threshold, the mobile-menu toggle,
  and navigation clicks. The DOM enters as a set of element ids; the
  lemmas about the assembled page use the section ids `app/page.tsx`
  renders.
- **Date formatting** (`app/utils/dateUtils.ts`, and the local copies in
  `DocumentsSection.tsx` and `PresentationsSection.tsx`).
  - A JavaScript Date enters as the values its UTC getters report; an
    Invalid Date reports NaN.
  - The JavaScript built-ins the site calls are written out in module
    `JsText`: `Number.prototype.toString`, `padStart`, the first-match
    `replace` with its search `IndexOf`, and the `\s` character class.
    `JsText.Split`, a one-character `split` the site does not call, states
    the '/'-field structure of a rendered date.
- **The documents list** and its title-to-preview-image switch, and the
  presentations list.

Module layout: one module per source file, plus `Wrappers` (an `Option` type)
and `JsText` (the JavaScript string and number built-ins).

Two behaviours of the code are easy to miss; the model follows the code:

- A request whose body is the JSON literal `null` passes `request.json()`;
  reading `body.name` then throws, so the handler answers 500, not 400
  (`ContactRoute.RequestBody.JsonNull`).
- A contacts file that parses but is not an array makes `contacts.push`
  throw, so the answer is 500 and the file is left as it was
  (`ContactRoute.Store.NonArray`).

## Model

| member | source | states |
|---|---|---|
| `ContactRoute.Handle` | app/api/contact/route.ts:17-77 | The status is one of 201, 400, 500. It is 201 exactly when the body has all four fields truthy and a valid email, the store holds an array, and the write succeeds. It is 400 exactly when the body was read and fails validation; the error is the missing-field text when a field is missing, and the invalid-email text otherwise. 201 carries `{success: true, message}` and 500 the retry-later error. Every non-201 answer leaves the store as it was. On 201 the store is the loaded records plus the new record, appended last. |
| `ContactRoute.ContactEndpoint.Post` | app/api/contact/route.ts:17-77 | The handler's early-return steps produce exactly the response `Handle` specifies, and leave in `store` exactly the store `Handle` specifies. |
| `ContactRoute.ContactEndpoint.constructor` | app/api/contact/route.ts:47 | The endpoint starts with the given contents of the contacts file. |
| `ContactRoute.MatchesEmailPattern` | app/api/contact/route.ts:31 | The regex `/^[^\s@]+@[^\s@]+\.[^\s@]+$/` read literally: a non-empty run, '@', a non-empty run, '.', a non-empty run, each run free of whitespace and '@'. A matched string has at least five characters and holds both '@' and '.'. |
| `ContactRoute.Truthy` | app/api/contact/route.ts:23 | A field is truthy exactly when it is present and not the empty string; a missing or null field reads as empty. |
| `ContactRoute.HasRequiredFields` | app/api/contact/route.ts:23 | The presence check passes exactly when the body is an object and none of name, email, subject and message is empty or missing. |
| `ContactRoute.IsValidEmail` | app/api/contact/route.ts:31-32 | The direct email check. An accepted string has at least five characters, holds an '@', and does not end in '@'. Its exact meaning is `EmailCheckMatchesPattern`. |
| `ContactRoute.EmailCheckMatchesPattern` | app/api/contact/route.ts:31-32 | The direct check accepts a string exactly when the pattern matches it: a non-empty run of non-whitespace, non-'@' characters, then '@', such a run, '.', such a run, and nothing else. |
| `ContactRoute.PatternPassesCheck` | app/api/contact/route.ts:31-32 | A string the pattern matches has no whitespace, exactly one '@' with something before it, and after it a '.' that is neither first nor last. |
| `ContactRoute.CheckPassesPattern` | app/api/contact/route.ts:31-32 | A string with those three properties is matched by the pattern, with the runs taken as the slices around the '@' and that '.'. |
| `ContactRoute.MatchCharacters` | app/api/contact/route.ts:31 | In a string the pattern matches, no character is whitespace, no '@' comes before the matched one, and none comes after it. |
| `ContactRoute.RunIsSlice` | app/api/contact/route.ts:31 | A slice is a `[^\s@]+` run exactly when it is non-empty and every character in it is in the class. |
| `ContactRoute.AcceptsExampleEmail` | app/api/contact/route.ts:31-32 | "ann@x.com" passes the email check. |
| `ContactRoute.ExampleEmailHasNoWhitespace` | app/api/contact/route.ts:31 | "ann@x.com" contains no whitespace character. |
| `ContactRoute.ExampleEmailAt` | app/api/contact/route.ts:31 | The first '@' of "ann@x.com" is at index 3, and none follows it. |
| `ContactRoute.RejectsExampleNonEmail` | app/api/contact/route.ts:31-32 | "not-an-email" fails the email check. |
| `ContactRoute.NewRecord` | app/api/contact/route.ts:40-44 | The record carries the body's name, email, subject and message unchanged, plus the supplied id and timestamp. It also carries the body's other members, except those the record's own six keys override. |
| `ContactRoute.LoadContacts` | app/api/contact/route.ts:50-60 | A missing or unparseable file loads as the empty array. A stored array loads as itself. The load gives nothing to push onto exactly when the file holds a non-array. |
| `ContactRoute.MissingFieldReportedBeforeBadEmail` | app/api/contact/route.ts:23-37 | An object body missing any of the four fields that also has a bad email gets the missing-field error, and the store is left alone. |
| `ContactRoute.FreshStoreHoldsOneRecord` | app/api/contact/route.ts:50-63 | With no file or an unparseable one, an accepted submission that is written leaves exactly one record, the new one. |
| `ContactRoute.ResubmissionAppendsAgain` | app/api/contact/route.ts:60-63 | Sending the same accepted body twice appends two records, one per call, in arrival order. No duplicate check is made. |
| `ContactRoute.AcceptedIsAppended` | app/api/contact/route.ts:40-69 | A body that passes both checks, sent to a stored array with the write succeeding, is answered 201 with the success body, and the store becomes the old array followed by the body's record. |
| `ContactRoute.ExampleAccepted` | app/api/contact/route.ts:40-69 | A concrete well-formed submission is answered 201 with the success body and appended as a record whose fields match the body's. |
| `ContactRoute.ExampleEmptyName` | app/api/contact/route.ts:23-28 | An empty name is refused with the missing-field error, and the store is untouched. |
| `ContactRoute.ExampleBadEmail` | app/api/contact/route.ts:32-37 | "not-an-email" is refused with the invalid-email error, and the store is untouched. |
| `SlideShowSection.SlideDeck` | app/components/SlideShowSection.tsx:7-38 | There are five slides with ids 1 to 5 in order. |
| `SlideShowSection.JsRem` | app/components/SlideShowSection.tsx:45 | JavaScript's `%`: equal to the mathematical remainder for a non-negative dividend, and in (-n, 0] for a negative one. |
| `SlideShowSection.Next` | app/components/SlideShowSection.tsx:51-53 | The next index stays in range. It is i+1 below the last slide and wraps to 0 from the last. |
| `SlideShowSection.Prev` | app/components/SlideShowSection.tsx:55-57 | The previous index stays in range (n-1 from 0, i-1 otherwise). |
| `SlideShowSection.PrevUndoesNext` | app/components/SlideShowSection.tsx:51-57 | Going back after going forward returns to the original slide. |
| `SlideShowSection.NextUndoesPrev` | app/components/SlideShowSection.tsx:51-57 | Going forward after going back returns to the original slide. |
| `SlideShowSection.AdvanceIsOffset` | app/components/SlideShowSection.tsx:45 | k forward steps from slide i land on (i + k) mod n. |
| `SlideShowSection.FullCycle` | app/components/SlideShowSection.tsx:52 | n forward steps return to the starting slide. |
| `SlideShowSection.IndicatorTargets` | app/components/SlideShowSection.tsx:110-113 | The indicator dots pass 0 to n-1 to `goToSlide`, one per slide in order, and each is in range. |
| `SlideShowSection.SlideShow.constructor` | app/components/SlideShowSection.tsx:40 | The cursor starts at slide 0, which is in range. |
| `SlideShowSection.SlideShow.Current` | app/components/SlideShowSection.tsx:81-82 | While the cursor is in range, the slide shown is one of the deck's. |
| `SlideShowSection.SlideShow.NextSlide` | app/components/SlideShowSection.tsx:51-53 | The cursor becomes `Next` of its old value and stays in range. |
| `SlideShowSection.SlideShow.Tick` | app/components/SlideShowSection.tsx:43-49 | The interval callback makes the same update as `NextSlide`. |
| `SlideShowSection.SlideShow.PrevSlide` | app/components/SlideShowSection.tsx:55-57 | The cursor becomes `Prev` of its old value and stays in range. |
| `SlideShowSection.SlideShow.GoToSlide` | app/components/SlideShowSection.tsx:59-61 | The cursor becomes exactly the index given. There is no bounds check, so the cursor stays in range exactly when the index is a slide's. |
| `UseInView.Resolve` | app/hooks/useInView.ts:11-15 | Each omitted option takes its default (threshold 0.1, trigger-once true, root margin '0px'), and each given option is kept. |
| `UseInView.ViewStep` | app/hooks/useInView.ts:21-30 | One callback: an intersecting entry sets the flag. Under trigger-once a set flag stays set and a non-intersecting entry keeps the flag. Without trigger-once a non-intersecting entry clears it. |
| `UseInView.ViewAfter` | app/hooks/useInView.ts:16-30 | The flag after a run of callbacks: false before any, true after an intersecting latest entry, and false after a non-intersecting latest entry without trigger-once. |
| `UseInView.DefaultSettings` | app/hooks/useInView.ts:11-15 | Omitted options default to threshold 0.1, trigger-once true and root margin '0px'. Given options are kept. |
| `UseInView.LatchSetIffSomeIntersection` | app/hooks/useInView.ts:20-30 | With trigger-once, the flag is set exactly when some entry so far was intersecting. |
| `UseInView.LatchIsMonotone` | app/hooks/useInView.ts:22-29 | With trigger-once, once the flag is set, no later entries clear it. |
| `UseInView.TracksLatestEntry` | app/hooks/useInView.ts:20-30 | Without trigger-once, the flag is the `isIntersecting` of the entry the latest callback read, and false before any callback. |
| `UseInView.NonIntersectingKeepsLatch` | app/hooks/useInView.ts:27 | With trigger-once, a non-intersecting entry leaves the flag as it was. |
| `UseInView.ViewAfterAppend` | app/hooks/useInView.ts:21-30 | One more entry is one more step of the callback, and the history then holds an intersection exactly when it did before or the new entry intersects. |
| `UseInView.InViewObserver.constructor` | app/hooks/useInView.ts:16-40 | The flag starts false, the options are resolved with their defaults, and the element is observed exactly when one is attached. |
| `UseInView.InViewObserver.OnEntry` | app/hooks/useInView.ts:21-30 | The flag takes the callback's step: an intersecting entry sets it; a non-intersecting one clears it only without trigger-once. It requires the element to be observed. Observation stops exactly when an entry intersects under trigger-once. The ties between the flag, observation and the entry history are kept. |
| `UseInView.InViewObserver.Cleanup` | app/hooks/useInView.ts:42-46 | The element is no longer observed. The flag and the history are unchanged. |
| `ContactSection.Updated` | app/components/ContactSection.tsx:25-31 | The changed field holds the new value, and every other field keeps its value. |
| `ContactSection.UpdatesCommute` | app/components/ContactSection.tsx:25-31 | Changing two different fields gives the same form in either order. |
| `ContactSection.FailureMessage` | app/components/ContactSection.tsx:64 | The message is `data.error` when that is a non-empty string. An absent or empty error gives the fallback text. It is never empty. |
| `ContactSection.StatusAfter` | app/components/ContactSection.tsx:49-71 | The status reports success exactly when the response was ok. An ok response shows the thank-you text. A not-ok response shows `FailureMessage` of the body's error. A thrown fetch shows the network-error text. |
| `ContactSection.FormAfter` | app/components/ContactSection.tsx:55-60 | After an ok response every field is empty. After any other outcome the form is kept as it was. |
| `ContactSection.RequestBodyOf` | app/components/ContactSection.tsx:44 | `JSON.stringify(formData)` as the handler parses it: an object with no other members, whose four fields read back as the form's. It passes the presence check exactly when no form field is empty. |
| `ContactSection.Delivered` | app/components/ContactSection.tsx:39-49 | The client sees a response: ok exactly for a 2xx status, and the `error` member of an error body, or none for a success body. |
| `ContactSection.ClientShowsServerVerdict` | app/components/ContactSection.tsx:33-75 | The form posted to the handler reports success exactly when the handler answered 201, and then shows the thank-you text. Otherwise it shows the handler's own error text. A form with an empty field always shows the missing-field error. |
| `ContactSection.ContactForm.constructor` | app/components/ContactSection.tsx:15-23 | The form starts with four empty fields, no submission in flight, and no status. |
| `ContactSection.ContactForm.HandleChange` | app/components/ContactSection.tsx:25-31 | Only the named field of the form changes, and the rest of the state is kept. |
| `ContactSection.ContactForm.BeginSubmit` | app/components/ContactSection.tsx:33-45 | The submission is marked in flight and the status is cleared. The request carries the current fields. |
| `ContactSection.ContactForm.FinishSubmit` | app/components/ContactSection.tsx:46-74 | The submission is no longer in flight in every outcome. The status is `StatusAfter` of the outcome. The fields are cleared only on an ok response and kept otherwise. |
| `Header.TargetId` | app/components/Header.tsx:40 | The target id is the href with its first '#' removed, wherever that '#' stands. For an href that starts with '#' it is the rest of the href. An href with no '#' is kept unchanged. |
| `Header.HeaderState.constructor` | app/components/Header.tsx:8-9 | The header starts unscrolled with the menu closed, and nothing pushed to the history. |
| `Header.HeaderState.HandleScroll` | app/components/Header.tsx:24-30 | `isScrolled` holds exactly when scrollY > 50 (strictly). The rest of the state is kept. |
| `Header.HeaderState.ToggleMenu` | app/components/Header.tsx:108 | The menu flips, and the rest of the state is kept. |
| `Header.HeaderState.HandleNavClick` | app/components/Header.tsx:37-57 | When the page has the target element, the click scrolls to it, pushes the href and leaves the menu closed. When the page lacks it, the click changes nothing. |
| `Header.NavLinkTargets` | app/components/Header.tsx:11-21 | There are nine links in a fixed order. Each href is '#' followed by the section id it targets. |
| `Header.NavTargetsDistinctOnPage` | app/page.tsx:21-31 | The nine targets are distinct, and each is a section the page renders. |
| `Header.EveryNavLinkScrolls` | app/components/Header.tsx:40-43 | On the assembled page, every navigation link finds its target element. |
| `DateUtils.FormatDate` | app/utils/dateUtils.ts:11-26 | The rendering is the day, month and year fields plus two '/' separators, and is at least seven characters long. Its layouts are `DmyLayout` and `MdyLayout`. |
| `DateUtils.DayField` | app/utils/dateUtils.ts:15 | The day field is at least two characters long, and "NaN" for an Invalid Date. |
| `DateUtils.MonthField` | app/utils/dateUtils.ts:16 | The month field is at least two characters long, and "NaN" for an Invalid Date. |
| `DateUtils.YearField` | app/utils/dateUtils.ts:17 | The year field is the year printed unpadded, and "NaN" for an Invalid Date. |
| `DateUtils.GetCurrentYear` | app/utils/dateUtils.ts:32-34 | The clock's year is printed as its decimal digits, with a leading '-' for a negative year. |
| `DateUtils.DefaultIsDmy` | app/utils/dateUtils.ts:11 | Omitting the format is the same as asking for day/month/year. |
| `DateUtils.DayFieldDigits` | app/utils/dateUtils.ts:15 | For an in-range date the day field is exactly two digits that read as the day. |
| `DateUtils.MonthFieldDigits` | app/utils/dateUtils.ts:16 | For an in-range date the month field is exactly two digits that read as the 0-based month plus 1. |
| `DateUtils.TwoDigits` | app/utils/dateUtils.ts:15-16 | A number from 0 to 99, printed and padded to two with '0', is two digits that read back as that number. |
| `DateUtils.DmyLayout` | app/utils/dateUtils.ts:15-25 | Day/month/year for an in-range date is `DD/MM/` followed by the unpadded year. The DD digits read as the day and the MM digits as the 1-based month. |
| `DateUtils.MdyLayout` | app/utils/dateUtils.ts:15-22 | Month/day/year for an in-range date is `MM/DD/` followed by the unpadded year. |
| `DateUtils.FormatsSwapFirstFields` | app/utils/dateUtils.ts:21-25 | For every date, Invalid Date included, both renderings split on '/' into three fields. The month-first ones are the day-first ones with the first two swapped. |
| `DateUtils.FormatIsInjective` | app/utils/dateUtils.ts:11-26 | In either format, two in-range dates that print alike are the same date. |
| `DateUtils.InvalidDatePrintsNaN` | app/utils/dateUtils.ts:15-17 | An Invalid Date prints as "NaN/NaN/NaN" in either format. |
| `DateUtils.ExampleDate` | app/utils/dateUtils.ts:11-26 | 15 June 2024 (UTC) prints as "15/06/2024" by default and "06/15/2024" month first. |
| `DateUtils.NoSlashInNumber` | app/utils/dateUtils.ts:15-17 | No printed number, NaN included, and no zero-padded one contains a '/'. |
| `JsText.IsWhitespace` | app/api/contact/route.ts:31 | The `\s` class of ECMAScript regular expressions: its WhiteSpace and LineTerminator characters. In ASCII it holds only the space and tab to carriage return, and it holds no visible ASCII character. |
| `JsText.IntToString` | app/utils/dateUtils.ts:17 | `Number.prototype.toString` on an integer gives decimal digits that read back as the number. A negative number gets a leading '-'. |
| `JsText.NatToString` | app/utils/dateUtils.ts:15-16 | A non-negative number prints as at least one digit, with a leading '0' only for zero, and one digit exactly below ten. |
| `JsText.DecimalRoundTrip` | app/utils/dateUtils.ts:15-17 | Reading back a printed non-negative number gives that number. |
| `JsText.IntToStringInjective` | app/utils/dateUtils.ts:17 | Different integers print differently. |
| `JsText.NumberToString` | app/utils/dateUtils.ts:15-17 | NaN prints as "NaN". A non-negative integer prints as digits that read back as it. A negative one prints as '-' and such digits. |
| `JsText.PadStart` | app/utils/dateUtils.ts:15-16 | `padStart(width, fill)` keeps a string at least as long as the width. Otherwise it prefixes fill characters up to the width, and the original string stays as the suffix. |
| `JsText.IndexOf` | app/components/Header.tsx:40 | `indexOf` gives nothing exactly when the character is absent. Otherwise it gives the first position holding that character. |
| `JsText.RemoveFirst` | app/components/Header.tsx:40 | `replace('#', '')` removes exactly the first '#', keeping the text before and after it. A string with no '#' is unchanged. |
| `JsText.Split` | app/utils/dateUtils.ts:21-25 | `split` gives at least one field, no field holds the separator, and a string without the separator is its own single field. |
| `JsText.SplitThree` | app/utils/dateUtils.ts:21-25 | Three separator-free fields joined by the separator split back into exactly those fields. |
| `DocumentsSection.FormatDate` | app/components/DocumentsSection.tsx:30-39 | The section's own formatter gives, for every date, the same text as the shared formatter, both with the format omitted and with day/month/year. |
| `DocumentsSection.RenderDocumentIcon` | app/components/DocumentsSection.tsx:165-253 | Each of the six known titles is shown with its own preview image and its title as alt text. Any other title gets the research-paper image with alt "Document". |
| `DocumentsSection.KnownImagesDistinct` | app/components/DocumentsSection.tsx:12-17 | The six recognised titles use six different images, from six different files. |
| `DocumentsSection.DocumentIds` | app/components/DocumentsSection.tsx:47-102 | There are six documents, with ids doc1 to doc6 in order, all distinct. |
| `DocumentsSection.ListedDocumentsHaveOwnIcons` | app/components/DocumentsSection.tsx:47-102 | Every listed document has its own image and its title as alt text; none falls through to the default case. |
| `DocumentsSection.ViewOptionsAreDefaults` | app/components/DocumentsSection.tsx:42-45 | The options the section passes to `useInView` resolve to the hook's defaults, trigger-once included. |
| `PresentationsSection.FormatDate` | app/components/PresentationsSection.tsx:21-30 | The section's own formatter agrees on every date with the shared formatter's default, and with the documents section's copy. |
| `PresentationsSection.FormattersAgree` | app/components/PresentationsSection.tsx:21-30 | The three copies of the formatter agree on every date. For an in-range date the text is `DD/MM/` then the year, with the day and the 1-based month as the two-digit fields. |
| `PresentationsSection.PresentationIds` | app/components/PresentationsSection.tsx:39-64 | There are three presentations, with ids pres1 to pres3 in order, all distinct. |
| `PresentationsSection.ViewOptionsAreDefaults` | app/components/PresentationsSection.tsx:33-36 | The section passes the documents section's options to `useInView`, and they resolve to the hook's defaults. |

## Left out

- File I/O, `path.join` and `JSON.parse`/`JSON.stringify` in the route are outside the model. The file is the abstract `Store`: missing, unparseable, parsed but not an array, or an array of records. Writing replaces it.
- A failed write enters as the flag `writeFails` and leaves the store as it was. A write that fails part way through is not modelled.
- A request body field holding a non-string JSON value (a number, an object) is not modelled. Fields are strings or absent; `null` counts as absent, as it is falsy.
- The body's other members are kept as a string-to-string map. JSON values of other types, and member order, are not kept.
- `Date.now()` and `new Date().toISOString()` are clock reads. The id and timestamp enter `ContactRoute.Handle` as parameters, which is why nothing is claimed about ids being unique.
- `getCurrentYear` reads the clock: the year enters `DateUtils.GetCurrentYear` as a parameter.
- Concurrent submissions can race on the read-modify-write of the contacts file. The code has no locking, and concurrency is not modelled.
- `console.error` in the handler's catch is output only and is not modelled.
- The general regular-expression engine is not modelled. Only the one fixed email pattern is, as a predicate.
- The browser's parsing of date strings (`new Date("2024-06-15")`) is not modelled. A Date enters as the values of its UTC getters, or as Invalid Date.
- The observer callback destructures `([entry])` and so reads only the first entry of each batch it is given. The model takes each callback as that one entry: `events` holds one `isIntersecting` per callback, and later entries of a batch are not modelled.
- `IntersectionObserver` is not modelled beyond the `isIntersecting` values its callback sees. Threshold and root margin are carried through to settings but have no effect in the model.
- The hook's effect re-running when its options change is not modelled.
- `ref.current` is taken as fixed from the effect to the callback. The case where it is replaced in between is not modelled.
- `fetch` and `response.json()` enter as the abstract `FetchOutcome`: responded with `ok` and the body's `error`, or threw. The HTTP layer between the form and the handler is the function `ContactSection.Delivered`.
- `ContactSection.ContactForm.BeginSubmit`: does not require that no submission is in flight. The page disables the submit button while `isSubmitting` holds (`ContactSection.tsx:201`), so it never starts a second submission before the first settles; the model allows overlapping ones.
- `e.preventDefault()` and the `required` and `type="email"` validation the browser does before submitting are not modelled.
- `ContactSection.ContactForm.HandleChange`: covers only the `name` attributes of the form's four inputs. An event carrying any other name, which would add a new member to the state, is not modelled.
- `window.scrollY`, `scrollIntoView`, `history.pushState` and `getElementById` are the DOM. They enter as a scroll offset, a set of element ids, and the `history` sequence of the header's state.
- The scroll listener's registration and removal, and the slideshow's `setInterval`/`clearInterval`, are not modelled. The timer's callback, every 5000 ms, is the `Tick` method; its period is not modelled.
- JavaScript numbers are modelled as unbounded integers: slide indices and the Date getters' values, where double-precision rounding never arises. The scroll offset is a `real`.
- All animation and presentational components are composition and styling only, with no state the site's behaviour depends on, so they are not modelled. This includes the section markup, framer-motion variants, the rest of the components, and `layout.tsx`. `page.tsx` enters only as the list of section ids.
