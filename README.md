# AquaPure page script — a Dafny model

`script.js` drives the AquaPure marketing page: a mobile menu, a story
slideshow with dots and swipe support, scroll-driven highlighting of the
navigation link, a product filter and product/tip detail modals, collapsible
certification panels, and a contact form with per-field validation. Most of
the file is DOM and timer glue; this project models the rules inside it that
have a sequential, checkable meaning, with each list of DOM elements reduced
to its "active" flags.

Modules, one per concern of the script:

- `Seqs` (seqs.dfy) — first-match search and counting of "active" flags.
- `Text` (text.dfy) — `String.prototype.trim` and the regular-expression
  class `\s` (one white-space predicate serves both, as in ECMAScript),
  `replace` with a string pattern (first occurrence only), `toUpperCase` on
  ASCII.
- `Gestures` (gestures.dfy) — the swipe classifier shared by the slider and
  the gallery.
- `Slideshow` (slideshow.dfy) — the slide index and the slide/dot flags as a
  class with arrays; `changeSlide`, the go-to-slide function and the slider's
  swipe handler as methods.
- `ContactForm` (contact_form.dfy) — `validateField`'s decision as pure
  functions, the email and phone patterns, and the submit handler's
  validation pass as a loop.
- `Navigation` (navigation.dfy) — `updateActiveNavLink`'s two loops.
- `Catalog` (catalog.dfy) — the product filter, modal key lookup, and the
  mineral label shown in the product modal.
- `Certifications` (certifications.dfy) — `toggleCertInfo`.
- `Page` (page.dfy) — the shared page state (menu flag and classes, body
  scroll lock, both modals) as a class whose methods are the handlers.
- `Declarations` (declarations.dfy) — the script's top-level bindings and the
  early errors ECMA-262 raises for them.

The script names both its slide index (`let currentSlide`, script.js:2) and
its go-to-slide function (`function currentSlide`, script.js:197)
`currentSlide`. The model keeps them apart: the index is the field
`Slideshow.Slideshow.idx` and go-to-slide is `Slideshow.Slideshow.GoToSlide`.
As written, the two declarations make the whole script fail to load (see
Findings); everything else in the model describes the script as it behaves
once that clash is removed.

Offsets, heights and touch coordinates are whole pixels. The page is assumed
to have as many dots as slides, since both are indexed with the slide index.

## Model

| member | source | states |
|---|---|---|
| Text.IsSpace | script.js:641 | the white space that `trim` strips and `\s` matches (space, tab, vertical tab, form feed, line terminators, no-break space, the Unicode space separators and the byte-order mark); its use is stated by the trim lemmas and the email and phone verdicts |
| Text.Trim | script.js:641 | `String.prototype.trim`: what it keeps and drops is stated by TrimIsInfix, TrimIdempotent and TrimEmptyIffAllSpace |
| Text.TrimStartSpec | script.js:641 | trimming the front keeps a suffix, drops only white space, and leaves a value that is empty or starts with a non-space |
| Text.TrimEndSpec | script.js:641 | trimming the back keeps a prefix, drops only white space, and leaves a value that is empty or ends with a non-space |
| Text.TrimIsInfix | script.js:641 | the trimmed value is a contiguous piece of the input with only white space on either side, and it neither starts nor ends with white space |
| Text.TrimStartKeeps | script.js:641 | a value not starting with white space is unchanged by trimming its front |
| Text.TrimEndKeeps | script.js:641 | a value not ending with white space is unchanged by trimming its back |
| Text.TrimIdempotent | script.js:641 | trimming twice is trimming once |
| Text.TrimEmptyIffAllSpace | script.js:641 | the trimmed value is empty exactly when the input is only white space |
| Text.ReplaceFirst | script.js:399 | `replace` with a one-character string pattern; its meaning is stated by ReplaceFirstSpec and ReplaceFirstRemovesOne |
| Text.ReplaceFirstSpec | script.js:399 | `replace` with a one-character pattern keeps the length, leaves a value without the character unchanged, and otherwise overwrites only its first occurrence |
| Text.ReplaceFirstRemovesOne | script.js:399 | replacing changes the count of the pattern character by minus one and of the replacement by plus one |
| Text.UpperAscii | script.js:399 | a lower-case ASCII letter becomes the capital at the same position of the alphabet; every other character is unchanged |
| Text.ToUpperAscii | script.js:399 | upper-casing keeps the length and maps every character by `UpperAscii` |
| Gestures.Classify | script.js:846-869 | a move is a swipe exactly when abs(dx) exceeds abs(dy) and 50; a swipe is a right swipe exactly when dx > 0, so a left swipe has dx below -50 |
| Gestures.SliderStep | script.js:863-867 | no swipe gives no step, a right swipe the step -1 (previous slide), a left swipe the step 1 (next slide) |
| Gestures.MirroredSwipe | script.js:857-869 | mirroring a gesture swaps left and right and keeps "no swipe", so the slider's steps for mirrored gestures cancel |
| Slideshow.Wrap | script.js:186-190 | the wrapped index is in [0, n): an in-range candidate is kept, any candidate at or past n becomes 0 and any negative candidate becomes n - 1 |
| Slideshow.Step | script.js:180-190 | one step always leaves an index in [0, n) |
| Slideshow.Repeat | script.js:180-190 | any positive number of steps leaves an index in [0, n) |
| Slideshow.OvershootIsNotModulo | script.js:186-187 | overshooting the last slide by more than one lands on slide 0, which differs from the sum modulo n |
| Slideshow.UndershootIsNotModulo | script.js:188-189 | undershooting the first slide by more than one lands on the last slide, which differs from the sum modulo n |
| Slideshow.BackFromFirst | script.js:188-189 | one step back from slide 0 shows slide n - 1 |
| Slideshow.StepsCancel | script.js:183-190 | one step forward and one back undo each other, in either order |
| Slideshow.ForwardInRange | script.js:183-190 | k forward steps that stay in range add k |
| Slideshow.ForwardPastEnd | script.js:183-190 | forward steps that pass the last slide restart from slide 0 with the remaining steps |
| Slideshow.ForwardCycle | script.js:173-195 | n forward steps from any slide return to it |
| Slideshow.BackwardInRange | script.js:183-190 | k backward steps that stay in range subtract k |
| Slideshow.BackwardPastStart | script.js:183-190 | backward steps that pass slide 0 restart from slide n - 1 with the remaining steps |
| Slideshow.BackwardCycle | script.js:173-195 | n backward steps from any slide return to it |
| Slideshow.Slideshow.constructor | script.js:2 | the page starts at index 0 with the flags of the markup |
| Slideshow.Slideshow.ChangeSlide | script.js:173-195 | with no slides nothing changes; otherwise the index becomes `Step(old, direction, n)`, only the old and new slide and dot flags change, and a single active slide/dot stays single |
| Slideshow.Slideshow.GoToSlide | script.js:197-219 | with no slides nothing changes; otherwise the index becomes `Wrap(k - 1, n)` (k - 1 in range, 0 above, n - 1 below) and exactly that slide and that dot are active, whatever the flags were |
| Slideshow.Slideshow.HandleSliderSwipe | script.js:857-869 | no swipe changes nothing; otherwise the index takes one step, back for a right swipe and forward for a left one, only the old and new slide and dot flags change, and a single active slide and dot stay single |
| Slideshow.AdvanceFullCycle | script.js:173-195 | from the page as loaded, n calls of changeSlide(1) return to slide 0 with exactly one slide active |
| ContactForm.EmailShape | script.js:658-663 | the email matcher: no white space and no second '@' anywhere, a first '@' that is not first, and after it at least three characters of which an inner one is '.'; EmailShapeIsPattern proves it equal to the regular expression |
| ContactForm.EmailShapeIsPattern | script.js:658-663 | the matcher accepts exactly the strings matching `^[^\s@]+@[^\s@]+\.[^\s@]+$` |
| ContactForm.ShapeHasPattern | script.js:658-663 | every string the matcher accepts matches the expression |
| ContactForm.PatternHasShape | script.js:658-663 | every string matching the expression is accepted by the matcher |
| ContactForm.ShapeFromParts | script.js:658 | a split at '@' and a later '.' into three non-empty runs without white space or '@' is accepted |
| ContactForm.PhoneShape | script.js:670 | `^[0-9-+\s()]+$`: a non-empty run of digits, '-', '+', white space and parentheses; its effect on the verdict is PhoneVerdict |
| ContactForm.RuleFor | script.js:647-693 | the switch has a rule exactly for the names name, email, phone, message and privacy |
| ContactForm.Check | script.js:647-693 | a rule's verdict is valid exactly when its error message is empty |
| ContactForm.ValidateField | script.js:639-707 | the verdict is valid exactly when its message is empty, and a field name without a rule is always valid |
| ContactForm.TrimDoesNotMatter | script.js:641 | surrounding white space never changes a field's verdict |
| ContactForm.RequiredTextVerdict | script.js:647-656 | name and message: blank means "please enter"; otherwise valid exactly when the trimmed length reaches 2 (name) or 10 (message), with the "too short" message on failure |
| ContactForm.EmailVerdict | script.js:658-667 | email: blank means "please enter your email"; otherwise valid exactly when the trimmed value matches the expression, with the "malformed" message on failure |
| ContactForm.PhoneVerdict | script.js:669-675 | phone: blank is valid; otherwise valid exactly when every trimmed character is a digit, '-', '+', white space or a parenthesis, with the "malformed" message on failure |
| ContactForm.PrivacyVerdict | script.js:687-692 | privacy: valid exactly when checked, with the consent message on failure |
| ContactForm.BlankEmailExample | script.js:660-662 | an empty email gets "이메일을 입력해주세요." |
| ContactForm.PlainAddressShape | script.js:658-663 | "a@b.co" is accepted by the matcher |
| ContactForm.PlainEmailExample | script.js:658-667 | the email "a@b.co" is valid |
| ContactForm.ShortMessageExample | script.js:677-685 | the five-character message "short" gets "문의 내용은 10글자 이상 입력해주세요." |
| ContactForm.LongMessageExample | script.js:677-685 | a nineteen-character message is valid |
| ContactForm.ValidateForm | script.js:717-734 | every field gets its own verdict, with no early exit; the form is valid exactly when every field is, and invalid exactly when some verdict carries a message |
| Navigation.InBand | script.js:130-133 | the band of a section is [top - navbarHeight - 100, that + height); its use is stated by LastInBand and CurrentSectionId |
| Navigation.LastInBand | script.js:127-136 | the result is -1 or a section whose band holds the offset, and no later section's band holds it |
| Navigation.CurrentSectionId | script.js:127-136 | a non-empty id belongs to a section whose band holds the offset, and when no band holds it the id is empty |
| Navigation.LinkFlags | script.js:138-143 | one flag per link; which are set is stated by AtMostOneLinkActive and NoCurrentSection |
| Navigation.AtMostOneLinkActive | script.js:138-143 | with distinct hrefs at most one link is active, and one is exactly when some href is '#' plus the current id |
| Navigation.NoCurrentSection | script.js:127-143 | when no band holds the offset the current id is empty and only a link whose href is "#" is active |
| Navigation.UpdateActiveNavLink | script.js:122-144 | the id found is that of the last section in document order whose band holds the offset, and exactly the links pointing at it are active |
| Catalog.ShowCard | script.js:238 | the filter predicate: a card is shown when the filter is 'all' or equals the card's category; its effect on the cards is stated by ShowAllShowsEvery and FilterShowsCategory |
| Catalog.FilterFlags | script.js:234-250 | one visibility flag per card; which are set is stated by ShowAllShowsEvery, FilterShowsCategory and CountMatching |
| Catalog.ShowAllShowsEvery | script.js:236-238 | the filter "all" shows every card |
| Catalog.FilterShowsCategory | script.js:236-238 | any other filter shows exactly the cards of its category, as many as carry that category |
| Catalog.CountMatching | script.js:236-238 | the number of shown cards is all of them under "all" and the category's count otherwise |
| Catalog.ApplyFilter | script.js:226-251 | exactly the clicked button is active, and each card ends shown exactly when the filter selects it |
| Catalog.BracketLookup | script.js:375 | a lookup finds an own key exactly for the table's keys and nothing exactly for names that are neither keys nor inherited |
| Catalog.OpenProductAsWritten | script.js:375-390 | the product modal is shown exactly for the table's keys, throws exactly for an inherited name that is not a key, and does nothing for any other key |
| Catalog.ShowTipAsWritten | script.js:585-596 | the tip modal never throws, and is shown exactly for the table's keys and the inherited names |
| Catalog.InheritedNameIsNotIgnored | script.js:375-376 | the unknown key "toString" makes the product modal throw and opens the tip modal |
| Catalog.OpenByOwnKey | script.js:375-376 | only the table's own keys open a modal; every other key is a no-op |
| Catalog.OwnKeyAgreesOffInherited | script.js:585-586 | the own-key lookup agrees with the written one on every key that is not an inherited name |
| Catalog.MineralLabel | script.js:399 | the label is as long as the key |
| Catalog.VitaminLabel | script.js:333 | the key "vitamin_c" is shown as "VITAMIN C" |
| Catalog.SecondUnderscoreKept | script.js:399 | a key with two underscores keeps the second one |
| Catalog.MineralLabelDropsOneUnderscore | script.js:399 | a key with underscores loses exactly one of them |
| Catalog.UpperKeepsUnderscores | script.js:399 | upper-casing keeps every underscore |
| Certifications.Toggled | script.js:472-481 | the flags keep their number |
| Certifications.AtMostOnePanelOpen | script.js:472-481 | with distinct ids at most one panel is open afterwards, and one is exactly when the target exists and was closed |
| Certifications.ToggleTwice | script.js:472-481 | toggling twice restores the target's flag and leaves every other panel closed |
| Certifications.UnknownTargetClosesAll | script.js:468-481 | a target without a panel closes every panel |
| Certifications.ToggleCertInfo | script.js:467-482 | the panels end with the flags `Toggled` describes |
| Page.PageState.constructor | script.js:4 | the page starts with the menu closed, no modal shown and scrolling free |
| Page.PageState.ToggleMobileMenu | script.js:80-92 | without the menu markup nothing changes; otherwise the flag and both classes flip, scrolling is locked exactly when the menu is open, the modals are untouched, and the classes stay in step with the flag |
| Page.PageState.ClickNavLink | script.js:63-69 | a nav-link click closes an open menu, flipping both classes and releasing scrolling; with the menu closed nothing changes; the modals and their rendered keys are kept |
| Page.PageState.ClickDocument | script.js:72-76 | a click outside the menu and its button closes an open menu, flipping both classes and releasing scrolling; any other click changes nothing; the modals and their rendered keys are kept |
| Page.PageState.OpenProductModal | script.js:257-416 | a product key shows the modal with that product and locks scrolling; any other key, or missing markup, changes nothing; the menu flag and classes and the tip modal and key are kept |
| Page.PageState.CloseProductModal | script.js:418-424 | the modal is hidden and scrolling released, whether or not the menu is open; the menu flag and classes, the tip modal and both rendered keys are kept |
| Page.PageState.ShowTipDetail | script.js:485-597 | a tip key shows the modal with that tip and locks scrolling; any other key, or missing markup, changes nothing; the menu flag and classes and the product modal and key are kept |
| Page.PageState.CloseTipModal | script.js:599-605 | the modal is hidden and scrolling released, whether or not the menu is open; the menu flag and classes, the product modal and both rendered keys are kept |
| Page.PageState.CloseModals | script.js:907-911 | each modal present in the markup is hidden and scrolling is released if either is present; a missing modal keeps its flag, with neither present nothing changes, and the menu flag and classes and both rendered keys are kept |
| Page.PageState.KeyDown | script.js:915-920 | Escape hides each modal present in the markup and releases scrolling if either is present; a missing modal keeps its flag, with neither present the page (scroll lock included) is unchanged, and the menu flag and classes and both rendered keys are kept; any other key changes nothing |
| Page.PageState.ClickWindow | script.js:907-912 | a click on a modal backdrop hides each modal present in the markup and releases scrolling if either is present; a missing modal keeps its flag, with neither present the page is unchanged, and the menu flag and classes and both rendered keys are kept; any other click changes nothing |
| Page.EscapeWithMenuOpen | script.js:915-920 | opening the menu and pressing Escape leaves the menu open but scrolling unlocked |
| Page.UnknownKeyIsIgnored | script.js:585-586 | on a freshly loaded page an unknown key opens no modal and leaves scrolling free, and a product key opens the product modal |
| Declarations.Offending | script.js:2-4 | a let position is offending exactly when its name is also declared by a function or by another let; the set is empty exactly when the bindings are free of early errors |
| Declarations.RedeclaredIffClash | script.js:2-4 | a let name is declared again exactly when a function carries it or another let position does |
| Declarations.EarlyErrorFreeIffNoneRedeclared | script.js:2-4 | the bindings are free of early errors exactly when no let name is declared again |
| Declarations.CurrentSlideRedeclared | script.js:197 | as written, the let at line 2 and the function at line 197 are both `currentSlide`, so let position 0 is offending and the script has an early error |
| Declarations.CorrectedLoads | script.js:2-4 | with the index renamed no name is declared twice, and the function `currentSlide` the markup calls remains |

## Left out

- Auto-advance of the slideshow every five seconds (script.js:168-170): a timer.
- `throttle` and `debounce` (script.js:7-30), and the scroll listeners they wrap: timing only.
- The navbar's "scrolled" class (script.js:146-158), parallax (script.js:608-622), `isElementInViewport`, `getElementOffset` and the smooth-scroll target (script.js:32-51, 94-120): floating-point geometry. The section bands of `updateActiveNavLink` use the offsets as whole pixels.
- The count-up animation, reveal-on-scroll and lazy images (script.js:427-465, 779-808, 873-889): browser observer callbacks and float increments.
- The submit delay, button spinner, form reset and success banner (script.js:736-777), and the error element's text and classes and `clearFieldError` (script.js:695-715): DOM presentation only; the verdict and message they show are modelled.
- The product and tip catalogue content and the HTML the modals render (script.js:264-373, 378-412, 491-597): only the key sets, the lookup and the mineral label are modelled.
- The card fade transitions and their timers (script.js:239-249): `Catalog.ApplyFilter` gives the visibility the cards settle in when clicks are more than 300 ms apart; a hide timer still pending from an earlier click can hide a card that a later filter shows.
- The touch-coordinate capture (script.js:811-844): the handlers receive start and end coordinates directly, so the capture variables shared by the two containers are not modelled. The gallery swipe only logs its direction (script.js:846-855): that is output, and its classification is `Gestures.Classify`.
- Image preloading (script.js:891-902), the injected CSS and the load-time initialisation calls (script.js:922-1055), and the `window` exports (script.js:1057-1065). The bodies of the window-click and keydown handlers (script.js:907-920) are modelled as `Page.PageState.ClickWindow` and `Page.PageState.KeyDown`.
- Slideshow.Slideshow.ChangeSlide, Slideshow.Slideshow.GoToSlide and Slideshow.Slideshow.HandleSliderSwipe: each requires `Valid()`, which includes as many dots as slides. With fewer dots the script throws on the missing dot. With more dots the script runs without error: `changeSlide` never touches the extra dots and `currentSlide(n)` clears them all; the model does not cover that page.
- ContactForm.RequiredTextVerdict: lengths count characters, whereas JavaScript counts UTF-16 code units, so a value with characters outside the Basic Multilingual Plane may be counted shorter here.
- Catalog.MineralLabel: upper-cases ASCII letters only; the catalogue's mineral keys are ASCII.
- Certifications.ToggleCertInfo: the target is looked up among the cert panels only; an element with the id `cert-…` that is not a cert panel is not modelled.
- Page.PageState.OpenProductModal: follows the corrected own-key lookup of the Findings below; as written, an inherited name such as "toString" throws instead of doing nothing.
- Page.PageState.ShowTipDetail: follows the corrected own-key lookup of the Findings below; as written, an inherited name such as "toString" shows the tip modal with "undefined" for its title and content and locks scrolling, whereas here it changes nothing.

## Findings

| source | as written | input that shows it | evidently intended | confidence | as-written member | corrected member |
|---|---|---|---|---|---|---|
| script.js:2 | `let currentSlide` and `function currentSlide` (line 197) are both top-level declarations; section 16.1.1 of ECMA-262 makes a let name declared again an early error, so the script is rejected before any of it runs | loading the page | the slide index and the go-to-slide function under different names | high, not executed | Declarations.CurrentSlideRedeclared | Declarations.CorrectedLoads |
| script.js:375-376 | `productData[productId]` and `tipData[tipType]` (script.js:585-586) are plain objects, so a name inherited from `Object.prototype` passes the `if (!product) return` guard; the product modal then throws at `product.features.map` and the tip modal opens showing "undefined" | the key "toString" | only the table's own keys open a modal; any other key is ignored | medium, not executed | Catalog.InheritedNameIsNotIgnored | Catalog.OpenByOwnKey |
