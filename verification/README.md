# Mail quoting, inbound delivery and index logic in Dafny

This project models the parts of Inboxies whose behaviour is hard to see from one
function, and proves what they keep.

- **Quoting.** The DOM-free sanitizer for quoted email HTML, the entity decoder, the
  hidden-element remover and the HTML-to-text converter (`shared/quoted-html.ts`,
  `shared/quoted-text.ts`). Loops are methods proved against functions on strings;
  the functions are split into a scan to tokens, a balancing pass and a printer. The
  modules named `…Laws`, `HiddenStyles` and `QuotedPages` say what these functions make
  of a text without naming their parts: lists of names, relations between texts and a
  table of what each tag stands for, written down independently.
- **Inbound delivery.** Claim, bucket writes, row, Inbox fallback, giving up and
  automations of any number of concurrent deliveries into one mailbox
  (`workers/index.ts`, `workers/lib/inbound-claims.ts`), as a state machine over
  actions: every call may fail, its answer may be lost, a delivery may crash
  anywhere, rows may be deleted, the mailbox purged and made anew. `InboundProgress`
  says what a delivery achieves; the other modules say what no run can do.
- **Site matching.** Rule loading, the public-suffix loop and the Public Suffix List
  algorithm it implements (`extension/site-match.js`), also on the list's own texts
  (`SuffixList`).
- **Inbox list.** The New/Seen sort, cached counters under read-state patches, the
  list builder with its cap, and the window total (`shared/list-sections.ts`).
- **Index URLs.** Mailboxes and tags named by position in a list that changes while
  a view is open (`shared/mailbox-url.ts`, `shared/tag-url.ts`).
- **Encodings and recipients.** The download header, base64 sizes and the outbound
  budget, reply-all (`shared/attachment-risk.ts`, `shared/outbound-limits.ts`,
  `shared/compose-attachments.ts`, `shared/reply-recipients.ts`).

`dafny verify dfyconfig.toml` checks all of it.

## How the model reads the source

- A string is a sequence of Unicode scalar values. A regular expression with the `g`
  flag is a matcher that says what the expression takes at the head of a string
  (`Strings.ReplaceAll`); a sticky one is a scanner.
- `InboundDelivery.State` holds the mailbox's tables, the bucket, failed writes that
  may still land, the started effects and, as history, every row ever stored.
  `createEmail` is one step: it stores nothing, or stores and returns, or stores and
  throws; it refuses exactly in a deleted mailbox. A folder that is missing is found
  before the row is stored. The claim functions are modelled from their own code.
- Collation (`localeCompare`) is any total preorder on strings. `toLowerCase` of
  addresses, percent-decoding of path segments and the punycode of a name that is not
  ASCII are parameters, so results hold for any; elsewhere `toLowerCase` is
  `Strings.Lower`, which maps ASCII letters and the Kelvin sign.
- Lemmas carry `{:induction false}`: none rests on an induction hypothesis that the
  verifier adds by itself.

## What turned out not to hold, and when it does

- A Message-ID is stored once exactly when normalizing does not change it
  (`InboundDedup.StoredOnceIff`): the row keeps the id as received, the duplicate
  check looks for the normalized one. Exactly the headers of
  `MessageIds.IsCleanHeader` give such an id; `<<a@b>` does not, and is stored twice
  (`InboundDedup.HeaderStoredOnceIff`, `InboundDedup.DoubledBracketStoredTwice`).
- That needs a claim to go stale only after its holder is dead
  (`LateTakeoverStoresTwice`), and a purged mailbox not to be made anew while an
  earlier delivery is under way, because the purge wipes the claims
  (`RecreatedStoresTwice`). `InboundDedup.IsPrompt` is this condition; each of the two
  runs breaks only its own half of it.
- An effect starts once per Message-ID only while its row is not deleted
  (`InboundDedup.RedeliveredRepeats`).
- A private one-label rule never sets the private flag of a suffix; every other
  prevailing rule's flag is the one computed (`SiteMatch.FlagIsListedIff`,
  `SiteMatch.ShortRuleIgnored`).
- The page-1 list has its layout exactly for a cap of at least one or none
  (`InboxList.PageOneLayoutIff`): with a cap of zero the New rows vanish uncounted.
- The declared total of an Inbox window is its size exactly for limits that are whole
  and not negative, or cover all New rows; parsed limits are (`InboxList.TotalMatchesIff`).
- A read-state patch conserves a cached page's counters exactly when neither would
  fall below zero (`ListSections.PatchConservesIff`), and every run of patches does
  exactly when they cover the rows no patch can move (`ListSections.RunsConserveIff`).
  Where rows have names and are no drafts, that is when they cover the page's own rows.
- A registrable domain names its own site exactly when it is no IP address and does not
  start with a `www` label, which the host reader takes off
  (`SiteMatch.SiteFixedIff`): the site of `shop.www.com` is `www.com`, which has none.
- A redirect to a pinned mailbox settles exactly for indexes below 10,000
  (`MailboxUrl.PinnedSettlesIff`).
- The hidden-element remover works after a tag, whatever follows it, exactly when the
  last quoted style of that tag closes in it (`HiddenLeaks.ClearedIff`): the quote of
  `<a style=">` reaches into the next tag.
- A carriage return that is not part of a line end, and a form feed, become blanks
  when a plain body is quoted and read back (`QuoteRoundTrip.QuoteReadsBack`).

## Model

| member | source | states |
|---|---|---|
| Entities.DecodeEscapeHtml | shared/quoted-text.ts:111-128 | decoding entities undoes the HTML escape on every string |
| Entities.DecodeEscapeAttr | shared/quoted-html.ts:66-72 | decoding entities undoes the attribute escape on every string |
| Entities.EscapeHtmlPerChar | shared/quoted-html.ts:226-233 | the chained replaces are one escape per character |
| Entities.EscapeAttrPerChar | shared/quoted-html.ts:66-72 | the same for attribute values |
| Entities.EscapeAttrInert | shared/quoted-html.ts:66-72 | an escaped value holds no quote and no angle bracket, so it cannot end its attribute or tag |
| EntityLaws.NumberDecoded | shared/quoted-text.ts:111-123 | a decimal entity, zeros in front included, is the character of its number; zero, surrogates and numbers past the last code point are nothing |
| EntityLaws.HexDecoded | shared/quoted-text.ts:115-121 | the same for `&#x…;`, in either case of the digits |
| EntityLaws.NameDecoded | shared/quoted-text.ts:124-125 | a named entity is its table entry, else that of its lower-case name, else it stays as written |
| EntityLaws.PlainDecoded | shared/quoted-text.ts:111-128 | text without `&` stays |
| EntityLaws.StrayDecoded | shared/quoted-text.ts:112-113 | `&` that starts no number or name with a semicolon stays |
| Attributes.CleanAttributes | shared/quoted-html.ts:103-123 | the attribute loop prints the kept attributes of the scanned source, first of each name, and the link pair |
| Attributes.KeepValueStable | shared/quoted-html.ts:74-101 | a value that passed its URL or style check passes it again unchanged, trimming included |
| Attributes.ScanRendered | shared/quoted-html.ts:64 | printed attributes are scanned as exactly those attributes |
| Attributes.KeepAttrsAgain | shared/quoted-html.ts:103-123 | kept attributes read back are kept again, and the link pair is dropped for re-adding |
| AttributeLaws.UrlKept | shared/quoted-html.ts:74-89 | without control characters before it and white space around the rest, a URL is kept exactly when it is http, https, mailto or tel, a fragment as `href`, `cid:` as `src`, or base64 image data as an image's `src` |
| AttributeLaws.RiskyIff | shared/quoted-html.ts:92-96 | a style is refused as code exactly when its lower-cased text has one of the listed words, white space aside before a parenthesis or colon |
| AttributeLaws.StyleKept | shared/quoted-html.ts:91-101 | a style is kept exactly when it is no code and each of its `url(` targets is http, https or `cid:` |
| AttributeLaws.EveryStyle | shared/quoted-html.ts:97-100 | every style is made of words and such targets |
| AttributeLaws.FateIff | shared/quoted-html.ts:112-118 | every attribute value has one fate by these rules, and it is the one computed |
| AttributeLaws.AttributesKept | shared/quoted-html.ts:103-123 | attributes as written, bare, quoted or unquoted: of every allowed name the first is printed with what its value becomes, and a kept `href` of a link adds `target` and `rel` |
| Sanitizer.SanitizeQuotedHtml | shared/quoted-html.ts:137-196 | the loop with its open-tag stack computes scan, balance and print of its input |
| SanitizerProofs.LexClean | shared/quoted-html.ts:144-193 | whatever the input, only allowed tags with kept attributes and text without brackets are emitted |
| SanitizerProofs.LexRender | shared/quoted-html.ts:63 | printing allowed tokens and scanning the text gives the same tokens |
| SanitizerProofs.BalanceNests | shared/quoted-html.ts:185-194 | the stack discipline always yields a well-nested word that closes everything it opened |
| SanitizerProofs.SanitizedReadsBack | shared/quoted-html.ts:144-195 | the output re-scans to exactly the tokens emitted; they are allowed and well-nested, and no prefix closes more than it opened |
| SanitizerProofs.SanitizeIdempotent | shared/quoted-html.ts:137-196 | sanitizing twice is sanitizing once, at string level, for every input |
| SanitizerProofs.FixedPoints | shared/quoted-html.ts:137-196 | the texts left unchanged are exactly the printed well-nested allowed tokens |
| SanitizerProofs.SanitizedTagsAllowed | shared/quoted-html.ts:29-61 | an independent scan of the output finds only allowed tags whose attributes are allowed and checked, or the link pair |
| SanitizerLaws.PartsReduce | shared/quoted-html.ts:137-196 | a text in front of any other may be replaced by what is left of its parts: text with `>` escaped, allowed tags with their checked attributes, nothing of comments, declarations, unknown tags and removed elements with their content |
| SanitizerLaws.ElementRemoved | shared/quoted-html.ts:176-182 | a listed element goes with its content, up to its first closing tag in any case |
| SanitizerLaws.UnclosedElement | shared/quoted-html.ts:179-181 | unclosed, a raw-text element takes the rest with it, and of another listed element only the tag goes |
| SanitizerLaws.UnclosedComment | shared/quoted-html.ts:153-162 | unclosed comments and declarations take the rest with them |
| SanitizerLaws.StrayEscaped | shared/quoted-html.ts:166-170 | `<` that starts no tag, comment or declaration is escaped, and nothing else changes |
| SanitizerLaws.EveryText | shared/quoted-html.ts:144-193 | every text starts with such a part, an unclosed one or a stray bracket, so these laws give every answer |
| SanitizerLaws.StrayEnd | shared/quoted-html.ts:189-193 | after tags nested so far, a closing tag of an element that is not open makes no difference |
| SanitizerLaws.MissingEnds | shared/quoted-html.ts:189-193 | a closing tag of an open element closes those inside it first, as if their closing tags were there |
| SanitizerLaws.ClosedAlike | shared/quoted-html.ts:189-195 | printed tags that stay open are closed at the end, innermost first, and one closing tag too many is dropped |
| QuoteBlocks.BodyTags | shared/quoted-html.ts:257-261 | the tags of a quoted body nest on their own, whatever follows |
| QuoteBlocks.ReplyQuoteContained | shared/quoted-html.ts:271-283 | a reply quote's tags are its frame's around the body's; the body closes none of the enclosing elements and the whole is well-nested |
| QuotedText.DropHiddenElements | shared/quoted-text.ts:157-195 | the loop with its moving search point computes the left-to-right removal of hidden elements, and ends on every input |
| QuotedText.FindElementEnd | shared/quoted-text.ts:179-189 | the depth loop over an element's tags finds the end the removal uses |
| HiddenElements.OnlyDeletes | shared/quoted-text.ts:157-195 | for every input, the result is the input with characters left out |
| HiddenElements.ItemsEndFirst | shared/quoted-text.ts:180-190 | an element ends at the first closing tag that has no opening tag left |
| HiddenElements.OpenerFollows | shared/quoted-text.ts:158-164 | what opens at a tag is what its last quoted style says, whatever follows |
| HiddenElements.HiddenSpansRemoved | shared/quoted-text.ts:157-195 | where brackets only delimit tags and the last quoted style of each opening tag closes in it, exactly the spans of hiding tags are gone, all else survives in order, and nothing that hides is left at any position |
| HiddenStyles.HiddenIff | shared/quoted-text.ts:166-167 | a quoted style hides exactly when its lower-cased text has `display`, a colon and `none`, white space aside around the colon, in either quotes |
| HiddenStyles.TagOfIff | shared/quoted-text.ts:179-185 | the tags that count for where an element ends are those with its name as a whole word, in any case |
| HiddenStyles.ElementGone | shared/quoted-text.ts:168-192 | a tag whose last quoted style hides goes with everything up to the closing tag that its name's tags leave over |
| HiddenStyles.AloneGone | shared/quoted-text.ts:172-176 | a void or self-closed tag that hides goes alone |
| HiddenStyles.UnclosedGone | shared/quoted-text.ts:190-192 | so does one that nothing closes |
| HiddenStyles.ShownStays | shared/quoted-text.ts:166-170 | a tag whose last quoted style does not hide stays, and the search goes on after it |
| HiddenStyles.UnstyledStays | shared/quoted-text.ts:157-165 | so do tags without a quoted style, and closing ones |
| HiddenLeaks.OpenerWithinIff | shared/quoted-text.ts:158-164 | what opens at a tag is decided by the tag alone if and only if its last quoted style closes in it |
| HiddenLeaks.LeakingTagFails | shared/quoted-text.ts:157-195 | a hiding tag that follows any other tag and its quote takes the whole text with it, the quote too, or stays: the text goes entirely or not at all |
| HiddenLeaks.ClearedIff | shared/quoted-text.ts:157-195 | hidden elements are removed cleanly after a tag, for all items that may follow, if and only if its last quoted style closes in it |
| HiddenLeaks.OpenStyleLeaks | shared/quoted-text.ts:158-159 | `<a style=">` is a tag whose style does not close |
| TidyText.TidyIsFinish | shared/quoted-text.ts:197-205 | the tidying regular expressions are one collapsing pass per line, a cap on newlines and a trim |
| TidyText.TidyAround | shared/quoted-text.ts:197-205 | white space around a text does not change what tidying makes of it |
| TidyLaws.PaddingVanishes | shared/quoted-text.ts:103-104 | the listed invisible characters make no difference anywhere |
| TidyLaws.BlanksAlike | shared/quoted-text.ts:201 | each listed blank reads as a space, and so does a run of two |
| TidyLaws.LineEdges | shared/quoted-text.ts:199-202 | white space before or after a newline makes no difference |
| TidyLaws.EmptyLinesAlike | shared/quoted-text.ts:203 | two empty lines in a row read as one |
| TidyLaws.TidyStays | shared/quoted-text.ts:197-205 | a text with single blanks, no white space at line ends, at most one empty line in a row and nothing invisible stays as it is |
| TidyLaws.TidiedIsTidy | shared/quoted-text.ts:197-205 | every tidied text is such a text, so tidying twice is tidying once and these laws give every answer |
| QuotedPages.PageQuoted | shared/quoted-text.ts:211-229 | the quote of a page is the tidied, decoded text that a table gives: blanks squeezed, each tag its line break, bullet, empty line, cell blank or nothing; comments, head, style, script, title and hidden elements gone with their content, a tag cut off at the end gone too |
| QuotedPages.RestSwallowed | shared/quoted-text.ts:128-133 | a style or script that nothing closes takes the rest of the page with it |
| QuotedPages.TextQuoted | shared/quoted-text.ts:106-213 | text that has no comment start and nothing like a tag is only decoded and tidied |
| QuotedPages.LineEndsAlike | shared/quoted-text.ts:212 | a carriage return, alone or before a newline, reads as a newline |
| QuoteRoundTrip.QuoteReadsBack | shared/quoted-html.ts:257-261 | a plain body quoted as HTML and read back as text is the body tidied, with carriage returns and form feeds as stated |
| QuoteRoundTrip.QuoteReadsBackPlain | shared/quoted-text.ts:211-229 | without carriage returns and form feeds, reading back gives exactly the tidied body |
| InboundClaims.Tables.ClaimInboundMessage | workers/lib/inbound-claims.ts:44-90 | the statements on the tables, pruning included, are the claim transition |
| InboundClaims.Tables.CompleteInboundMessageClaim | workers/lib/inbound-claims.ts:96-105 | only the delivery's own claim is completed |
| InboundClaims.Tables.AbandonInboundDelivery | workers/lib/inbound-claims.ts:113-132 | answers whether the row is stored; completes or drops only the delivery's own claim |
| InboundClaims.ClaimAnswer | workers/lib/inbound-claims.ts:44-90 | an id is claimed unless it is stored or was claimed within a quarter of an hour and not stored; claims older than a week go, all others stay |
| InboundSafety.SafeStep | workers/index.ts:2107-2440 | every step keeps: stored rows have their objects, and each delivery's phase agrees with its row and objects |
| InboundSafety.EffectsStep | workers/index.ts:2459-2572 | every step keeps: started effects belong to stored rows, no bounce report, none started twice |
| InboundSafety.TidyStep | workers/index.ts:1964-1988 | every step keeps: each claim belongs to a delivery that did not give it back, and without bucket faults only recorded objects exist |
| InboundDedup.UniqueStep | workers/index.ts:2089-2105 | every prompt step keeps: a delivery that may still store holds the claim on a Message-ID that has no row |
| InboundDedup.StoredObjectsStay | workers/index.ts:1964-1988 | no run deletes an object of a stored row: contents and every attachment stay as long as the row |
| InboundDedup.NothingLeftBehind | workers/index.ts:2573-2582 | a delivery that gave up with the bucket working leaves no object, no write under way, no claim and no row |
| InboundDedup.OneContender | workers/index.ts:2089-2105 | in every prompt run, stored rows of a canonical Message-ID plus deliveries that may still store one never exceed one |
| InboundDedup.EffectsOnce | workers/index.ts:2459-2572 | forward, auto-reply, auto-draft and push start only after the delivery's row was stored, each at most once, never for a matched bounce report |
| InboundDedup.EffectsOncePerMessage | workers/index.ts:2441-2457 | over all deliveries of one Message-ID an effect starts twice only when a row of it was deleted |
| InboundDedup.RedeliveredRepeats | workers/lib/inbound-claims.ts:78-89 | and it does: a prompt run, for every Message-ID, that forwards twice with a deletion in between |
| InboundDedup.StoredOnceIff | workers/lib/inbound-claims.ts:29-61 | a Message-ID is stored at most once at a time in all prompt runs if and only if normalizing leaves it unchanged |
| InboundDedup.StoredTwice | workers/lib/inbound-claims.ts:59-61 | a run that stores any non-canonical Message-ID twice |
| MessageIds.ExtractedCanonicalIff | workers/index.ts:2086-2087 | exactly the clean headers give a canonical id: no white space or `<` at the ends of the bracketed part, or a first word without brackets at its ends |
| InboundDedup.HeaderStoredOnceIff | workers/index.ts:2086-2105 | the mail of a header is stored at most once at a time in all prompt runs if and only if the header is clean |
| InboundDedup.DoubledBracketStoredTwice | workers/index.ts:2086-2087 | the header `<<a@b>` yields an id that two deliveries store twice |
| InboundDedup.LateTakeoverStoresTwice | workers/lib/inbound-claims.ts:78-89 | when a claim goes stale under a living delivery, both store, every other step being prompt |
| InboundDedup.RecreatedStoresTwice | workers/lib/mailbox-purge.ts:35-55 | a purge wipes claims: made anew too early, a mailbox stores one Message-ID twice, every other step being prompt |
| InboundProgress.FallbackStores | workers/index.ts:2405-2457 | mail for a missing folder other than inbox, screener and screened_out is stored in the Inbox, completes its claim and goes on to its effects |
| InboundProgress.MissingStoresNothing | workers/index.ts:2421-2442 | a bounce report, and mail for one of these three, stores nothing when its folder is missing and gives up |
| InboundProgress.FallbackOnce | workers/index.ts:2426-2441 | when the Inbox is missing as well, nothing is stored and the delivery gives up |
| InboundProgress.ErrorGivesUp | workers/index.ts:2421-2442 | any other error of `createEmail` gives up at once, wherever the mail was to go |
| InboundProgress.CompleteJourney | workers/index.ts:2092-2457 | a delivery all of whose calls succeed stores its row with its objects, completes its claim and may start its effects |
| InboundProgress.EffectsInOrder | workers/index.ts:2459-2572 | from there any choice of the four effects starts, in order, and the mail is delivered |
| InboundProgress.ForwardThrows | workers/index.ts:2459-2500 | a forward that throws takes the auto-reply with it, and nothing else |
| InboundProgress.ReportsArchived | workers/index.ts:2185-2200 | no step files a matched bounce report anywhere but in the archive |
| InboundProgress.AnyFailureGivesUp | workers/index.ts:2573-2582 | whatever throws before the row is stored, the claim is given back and the recorded objects are deleted |
| InboundProgress.FailedWrite | workers/index.ts:2107-2140 | a write to the bucket that fails ends the delivery's work, and its object may land, now or later |
| InboundProgress.LateFailureStays | workers/index.ts:2573-2582 | what throws after that leaves row, claims, objects and effects |
| InboundProgress.RetryIsStored | workers/index.ts:1964-1988 | after a delivery gave up, a retry with its Message-ID is stored in full |
| InboundProgress.StoredAfterAll | workers/index.ts:1964-1988 | when the row was stored although the call failed, the objects stay and the claim is completed |
| InboundProgress.DuplicateTurnedAway | workers/index.ts:2092-2105 | a Message-ID that is stored or held is turned away before anything is written |
| InboundProgress.DeletedRejects | workers/index.ts:2409-2420 | a deleted mailbox stores nothing, rejects the mail and deletes its objects, answered or not |
| InboundProgress.DeletedReportThrows | workers/index.ts:2185-2200 | a matched bounce report is not rejected there: the delivery throws |
| InboundProgress.UnansweredKeepsObjects | workers/index.ts:1976-1982 | without an answer a failed delivery keeps its objects |
| SiteMatch.LoadSections | extension/site-match.js:24-34 | the three maps hold the last flag of each rule name, private section last |
| SiteMatch.PublicSuffixOf | extension/site-match.js:61-75 | the loop computes the scan its properties are proved about |
| SiteMatch.SuffixIsListed | extension/site-match.js:61-75 | for all well-formed rules and labels, the loop's suffix length is the one of the Public Suffix List algorithm |
| SiteMatch.PrevailingSuffix | extension/site-match.js:61-75 | length and flag are the prevailing rule's: exceptions first, then more labels, exact before wildcard, later duplicates |
| SiteMatch.DefaultSuffix | extension/site-match.js:62 | without a matching rule the suffix is the last label, not private |
| SiteMatch.FlagIsListedIff | extension/site-match.js:68 | the flag is the prevailing rule's if and only if that is no private one-label rule |
| SuffixList.PrevailingLine | extension/site-match.js:24-75 | on the texts of the list: suffix and flag are those of the line that covers the host, labels from the right with `*` for any, `!` lines first, then more labels, exact before wildcard, later duplicates |
| SuffixList.NoLine | extension/site-match.js:61-75 | a host that no line covers has its last label as suffix |
| SuffixList.SuffixIffLine | extension/site-match.js:24-75 | the suffix length is the list's if and only if it is the one computed |
| SuffixList.SuffixOf | extension/site-match.js:24-75 | loading the two sections and running the loop gives that suffix |
| Hosts.LabelsJoin | extension/site-match.js:64 | dot-free labels are read back from their join, so candidates name one suffix |
| Hosts.HostOfDomain | extension/site-match.js:37-55 | the host of a domain is the domain, less a first `www` label |
| HostLaws.HostFound | extension/site-match.js:37-55 | of a typed address only the host is left, in lower case, without the white space, scheme, `www` label, final dot, port and path around it; a browser is asked about names that are not ASCII |
| SiteMatch.DomainFixed | extension/site-match.js:82-94 | suffix and flag of a registrable domain's own labels are those of the host |
| SiteMatch.HasSiteIff | extension/site-match.js:82-88 | a host has a site exactly when it has two labels or more of small letters, digits and hyphens, is no IP address and is longer than its suffix |
| SiteMatch.SiteFixedIff | extension/site-match.js:37-94 | the site of a site's domain is that site if and only if its first label is not `www` plus digits and it is no IP address |
| SiteMatch.ShopSite | extension/site-match.js:37-100 | `shop.www.com` has the site `www.com`, which has none, and a label `www.com` does not match it |
| SiteMatch.SameDomainSameSite | extension/site-match.js:82-94 | hosts of equal domain have equal suffix and privacy |
| SiteMatch.DottedLabelMatches | extension/site-match.js:96-100 | a dotted label matches exactly the hosts of its own site |
| SiteMatch.PlainNameMatches | extension/site-match.js:101-104 | a plain name matches exactly name + generic top-level domain of no private suffix |
| ListSections.CountListSections | shared/list-sections.ts:60-71 | counts New rows and all others |
| ListSections.AnyStableSort | shared/list-sections.ts:45-58 | there is one sorted order of the indexed rows: any stable sort gives this result |
| ListSections.SortSorts | shared/list-sections.ts:45-58 | the result is a permutation, New first, later dates first |
| ListSections.SortedStays | shared/list-sections.ts:45-58 | sorting a sorted page changes nothing |
| ListSections.PatchesConserve | shared/list-sections.ts:167-195 | over any run of patches counters minus the page's rows are constant, their sum and the total are conserved, the clamp never fires, the page stays a sorted arrangement of the same rows in their sections |
| ListSections.PatchConservesIff | shared/list-sections.ts:176-188 | for any cache and patch, counters minus the page's rows are unchanged if and only if neither counter would fall below zero, as page and patch tell beforehand |
| ListSections.RunsConserveIff | shared/list-sections.ts:167-195 | for any cache, all runs of patches conserve if and only if the counters cover the rows no patch can move: drafts, and rows without id and thread |
| ListSections.NamedRunsConserveIff | shared/list-sections.ts:167-195 | where no row is such, if and only if they cover the page's rows |
| ListSections.ClampCounts | shared/list-sections.ts:181-188 | a page they do not cover, and a patch after which one conversation more is counted |
| ListLaws.InboxPatched | shared/list-sections.ts:137-190 | after a patch each row of the Inbox page is one of the page's rows, read or unread when id or thread match and else as it was, labelled New exactly when it is no draft and is unread or has unread messages |
| ListLaws.OtherFolder | shared/list-sections.ts:171-174 | in any other folder rows are patched where they stand and no counter moves |
| InboxList.BuildInboxListItems | shared/list-sections.ts:204-290 | the loop with its flags and counters computes the builder its properties are proved about |
| InboxList.RowsShown | shared/list-sections.ts:232-273 | on every page and for every order the rows shown are the input's in order, without the New rows past the cap on page 1 |
| InboxList.PageOneLayoutIff | shared/list-sections.ts:223-290 | page 1 is New header, New rows to the cap, how many more, Seen header, Seen rows, if and only if the cap is at least one |
| ListLaws.NothingNew | shared/list-sections.ts:248-289 | without New rows, page 1 has the New header, says so, and has the Seen header and rows |
| ListLaws.LaterPage | shared/list-sections.ts:232-273 | every later page has the headers and rows of its sections in full |
| InboxList.TotalMatchesIff | shared/list-sections.ts:108-128 | for every ranked row set and any query, the declared total is the number of rows the filter keeps if and only if there is a section, no limit, a limit of at least all New rows, or a whole one that is not negative |
| InboxList.TotalMatchesWindow | shared/list-sections.ts:93-128 | every parsed query is such a query |
| ListLaws.WindowRead | shared/list-sections.ts:93-118 | a query's window is one section, or all Seen rows and the New ones up to the limit, at most 100 |
| IdOrder.OrderedAgree | shared/mailbox-url.ts:28-30 | the URL order does not depend on the order of the input |
| UrlLaws.AtMostIff | shared/mailbox-url.ts:29 | ids compare as JavaScript strings do: by their UTF-16 code units |
| UrlLaws.OrderedByUnits | shared/mailbox-url.ts:28-30 | the URL order is the same ids in that order |
| IdOrder.IndexExactly | shared/mailbox-url.ts:25-36 | a segment names index n exactly when it is n printed and n is below 10,000 |
| MailboxUrl.OutcomeIs | shared/mailbox-url.ts:150-170 | what each outcome says about the pinned, the named and the fallback mailbox |
| MailboxUrl.SettlesInOneHop | shared/mailbox-url.ts:150-170 | with up to 10,000 mailboxes every outcome's URL shows the promised mailbox, or is the start page without any |
| MailboxUrl.PinnedSettlesIff | shared/mailbox-url.ts:157-162 | a redirect to the pinned mailbox settles exactly for indexes below 10,000 |
| MailboxUrl.OrderDoesNotMatter | shared/mailbox-url.ts:150-156 | outcomes do not depend on how the ids are listed |
| MailboxUrl.PinnedStaysShown | shared/mailbox-url.ts:150-162 | over any run of list edits the open mailbox stays open at its index until it is removed |
| MailboxUrl.LegacyRedirectsOnce | shared/mailbox-url.ts:105-115 | the target of an old-link redirect is never redirected again |
| UrlLaws.ReferenceResolved | shared/mailbox-url.ts:67-83 | a segment is an index below 10,000, or the first mailbox whose lower-case id it decodes to, or unknown |
| UrlLaws.OldMailboxLink | shared/mailbox-url.ts:105-115 | an old link leads to the same view with its query at the mailbox's index, or to the start page; an index leads nowhere |
| UrlLaws.OtherMailboxPath | shared/mailbox-url.ts:85-90 | and so does every other path |
| TagUrl.TagSettles | shared/tag-url.ts:150-161 | a tag URL is settled after one hop and shows what was promised |
| TagUrl.LegacySettles | shared/tag-url.ts:145-150 | an old link to a tag leads in one hop to the tag or the Inbox |
| TagUrl.SettlesInTwo | shared/tag-url.ts:136-162 | whatever the URL, the folders and the pin, two redirects settle the view |
| TagUrl.RemovedTagLeaves | shared/tag-url.ts:151-153 | a removed tag's view goes to the Inbox, never to another tag |
| TagUrl.TagOrderDoesNotMatter | shared/tag-url.ts:29-33 | tag indexes do not depend on how the folders are listed |
| TagUrl.TagStaysShown | shared/tag-url.ts:151-158 | over any run of folder edits the open tag stays open at its index until it is removed |
| TagUrl.LegacyTagRedirectsOnce | shared/tag-url.ts:98-105 | the target of an old tag link is never redirected again |
| UrlLaws.TagsByUnits | shared/tag-url.ts:29-33 | tags are the folders that are not built in, by their UTF-16 code units |
| UrlLaws.OldTagLink | shared/tag-url.ts:76-105 | an old link to a tag leads to the same view at its index, or to the mailbox's Inbox; built-in folders and indexes lead nowhere |
| UrlLaws.ListReconciled | shared/tag-url.ts:136-162 | what each list URL comes to, with and without the folders and a pinned tag |
| Utf8.EncodeReadsBack | shared/attachment-risk.ts:173-176 | strict UTF-8 decoding gives every string back from its bytes |
| ContentDisposition.EncodedReads | shared/attachment-risk.ts:173-176 | the encoded name is of the value grammar of section 3.2.1 of RFC 5987 and stands for the name's bytes |
| ContentDisposition.FallbackPlain | shared/attachment-risk.ts:172 | the fallback is printable ASCII without quotes and backslashes |
| ContentDisposition.FallbackAt | shared/attachment-risk.ts:172 | it has the name's printable characters in place, and `_` for each UTF-16 code unit of any other |
| ContentDisposition.DispositionReadsBack | shared/attachment-risk.ts:170-178 | a reader of the header gets the fallback from the quoted name, which cannot end early, and exactly the file name from the extended one |
| OutboundLimits.BytesToBase64 | shared/compose-attachments.ts:95-109 | the chunked loop gives the base64 text of all bytes |
| OutboundLimits.SymbolsReadBack | shared/compose-attachments.ts:108 | base64 symbols decode to the bytes |
| OutboundLimits.EncodedCarries | shared/outbound-limits.ts:30-35 | what the encoder writes carries the bytes |
| OutboundLimits.SpaceInserted | shared/outbound-limits.ts:31 | and still does with white space put in anywhere |
| OutboundLimits.DecodedLengthExact | shared/outbound-limits.ts:30-35 | the decoded length is exact for every byte array, padded or not |
| OutboundLimits.EstimateOutboundMessageBytes | shared/outbound-limits.ts:42-50 | the loop adds up body and attachment bytes |
| OutboundLimits.EstimateExact | shared/outbound-limits.ts:42-50 | the estimate is the number of bytes of the body's parts and of everything attached |
| OutboundLimits.AttachingStaysUnder | shared/outbound-limits.ts:53-55 | attaching files that each fit the remaining budget never passes the cap, and grows the estimate by exactly their bytes |
| ReplyRecipients.UniqueAddresses | shared/reply-recipients.ts:33-53 | the loop with its seen set lists the first entry of every address that counts |
| ReplyRecipients.UniqueIs | shared/reply-recipients.ts:33-53 | every address that counts appears exactly once, the excluded one never |
| ReplyRecipients.BareKey | shared/reply-recipients.ts:18-24 | a plain address is compared as it is, without white space around it |
| ReplyRecipients.BracketKey | shared/reply-recipients.ts:18-24 | of a text with brackets only what the first ones hold is compared |
| ReplyRecipients.ReplyAllPartitions | shared/reply-recipients.ts:76-89 | To and Cc of a reply-all together are the unique addresses of sender, To and Cc in first-seen order |
| ReplyRecipients.RewriteReachesOthers | shared/reply-recipients.ts:101-120 | a retargeted reply goes to the original recipients and never to oneself; it stays self-mail exactly when it was and the original is not one's own or went to nobody else; so retargeting again changes nothing |
| ReplyRecipients.OtherRepliesStay | shared/reply-recipients.ts:101-120 | a reply that goes to anyone else, or to a mail one did not send, stays as it is |

## Left out

- InboundDedup.OneContender: `createEmail` and the claim calls are single steps. In the bounce-report branch the mailbox waits for its own address between the writable check and the insert; a purge in that gap is not modelled.
- InboundDedup.NothingLeftBehind: deletions retried by the alarm are not modelled, so a failed deletion is only marked as a fault.
- MailboxUrl.SettlesInOneHop: ids are folded with `Strings.Lower`, which knows ASCII letters and the Kelvin sign, not all of Unicode.
- SiteMatch.SuffixIsListed: rules with `*` elsewhere than at the front, and exceptions of one label, are excluded; the list has none.
- Hosts.HostFrom: `new URL(…).hostname` for names that are not ASCII is a parameter.
- QuotedPages.PageQuoted: comments inside head, style, script and title, hidden elements that nothing closes, and tags whose last quoted style does not close are no pieces of a page; `HiddenLeaks` says what the last ones do.
- AttributeLaws.AttributesKept: attributes without white space between them, and a value that starts with a quote nothing closes, are no written form here.
- HostLaws.HostFound: a host with a colon or white space in it is not covered.
- QuoteBlocks.ReplyQuoteContained: the attribution line is any text; date and sender formatting, the text part and the forward header are not modelled.
- Unpaired surrogates: a string here has none.
- Inherited names of the entity table's object literal, such as `constructor`.
- What browsers make of the sanitized markup (optional end tags, foster parenting).
- `plainPreviewText`, `lastExtension`, `servedAttachmentContentType`, `replyToAddresses`, `countRecipients` and `legacyInviteRedirect`: short expressions that would only add easy members.
- Classification, triage, filters, bounce matching and settings: arbitrary inputs to the delivery steps.
- Retries of a failed auto-reply, auto-draft or push after they were started.
