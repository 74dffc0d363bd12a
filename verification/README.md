# ResumeIt backend core in Dafny

A model of the behavioural core of the ResumeIt resume service's Django backend.
Each piece of the program is a pure function over immutable values.

- **ATS analyzer** (`ats_checker/services.py`). It extracts the top keywords of a job description. It searches for each keyword as a whole word in the flattened resume content. It scores keyword coverage, section structure and formatting, and combines them into the truncated weighted overall score. It then produces the aggregated suggestions and the rows saved for them, and handles applying a saved suggestion.
- **Subscriptions.** The status and payment enumerations and the record defaults (`subscriptions/models.py`). The `cancel`, `renew` and `process_payment` actions and the listing filters (`subscriptions/views.py`). The date and status effects of the three signal handlers (`subscriptions/signals.py`).
- **Users.** The role choice, `is_subscribed`, `current_subscription` and `get_subscription_status` (`users/models.py`). The two permission classes (`users/permissions.py`). Crediting a referral on registration (`users/signals.py`).
- **Resumes.** Version history on create, update and restore, and the owner filter (`resumes/serializers.py`, `resumes/views.py`). Version numbers at least 1 and strictly increasing is an invariant every operation keeps. This is the uniqueness the database demands in `resumes/models.py`.
- **Templates.** Create and update with section replacement, the template and section listing filters, and a template's `sections` action (`templates/serializers.py`, `templates/views.py`).

Conventions used throughout:

- Dates are integer day numbers. Today's date is a parameter `today`.
- Querysets are sequences in the order the database returns them. A `.filter(...)` is an order-preserving filter. Template sections, whose model declares `ordering = ['order']`, are listed sorted by `order` (`Templates.SortByOrder`).
- Keys the database assigns on insert are parameters.
- Resume content is a JSON tagged union (`ResumeContent.Json`). Objects keep their keys in insertion order.
- Scores are exact reals. Python's `int()` on a non-negative float is `.Floor`.

Files, one module each:

- `collections.dfy`: Option/Result, subsequence, filter
- `text.dfy`: character classes, lower-casing, `split`, `strip`
- `ats_content.dfy`, `ats_keywords.dfy`, `ats_match.dfy`, `ats_analyzer.dfy`
- `subscriptions_models.dfy`, `subscriptions_signals.dfy`, `subscriptions_views.dfy`
- `users_models.dfy`, `users_permissions.dfy`, `users_signals.dfy`
- `resumes.dfy`, `templates.dfy`

The overall score is truncated with `int()` (ats_checker/services.py:61), not rounded. `AtsAnalyzer.TruncatesNotRounds` shows a case where rounding would give a different value.

## Model

| member | source | states |
|---|---|---|
| Keywords.Weight | ats_checker/services.py:144 | a keyword weighs 3 exactly when its importance is high, 2 exactly when medium and 1 exactly when low |
| Keywords.WeightOfCount | ats_checker/services.py:118 | graded from its count, a keyword weighs 3 above five occurrences, 2 above two and 1 otherwise, so a more frequent word never weighs less |
| Keywords.DropPunctuation | ats_checker/services.py:95 | removing `[^\w\s]` keeps exactly the word and whitespace characters of the input, every one of them, in order |
| Keywords.Tokens | ats_checker/services.py:95-98 | every token of the lower-cased, punctuation-free description is a non-empty run of lower-case word characters |
| Keywords.TokensOfWords | ats_checker/services.py:95-98 | a description made of lower-case words separated by whitespace tokenises back into exactly those words, in order |
| Keywords.Distinct | ats_checker/services.py:101 | the counter's keys are exactly the tokens, once each, in order of first occurrence |
| Keywords.Candidates | ats_checker/services.py:101-107 | each candidate is a word longer than two characters, not a common word, with its exact number of occurrences; every such token has a candidate; candidates are in first-occurrence order |
| Keywords.SortRanked | ats_checker/services.py:110 | after the stable sort by count, descending, counts never increase and equal counts keep first-occurrence order |
| Keywords.SortPermutes | ats_checker/services.py:110 | the sort is a permutation of the candidates |
| Keywords.TopCandidates | ats_checker/services.py:113 | twenty candidates are kept, or all when there are fewer; every kept one is a candidate, and no candidate left out occurs more often than any kept one |
| Keywords.ExtractKeywords | ats_checker/services.py:95-123 | at most 20 keywords; each is an eligible word occurring that many times (at least once) in the description, graded high above 5, medium above 2, else low |
| Keywords.KeywordsRanked | ats_checker/services.py:101-113 | the keywords are distinct, with non-increasing counts, and equal counts appear in first-occurrence order |
| Keywords.KeywordsComplete | ats_checker/services.py:106-113 | an eligible word of the description that is not a keyword means 20 keywords were kept, each at least as frequent as it |
| Text.Split | ats_checker/services.py:98 | `str.split()` yields non-empty whitespace-free tokens whose concatenation is the input with whitespace removed |
| Text.SplitInterleave | ats_checker/services.py:98 | splitting words laid out with whitespace, any amount before, between and after them, gives back exactly those words, in order, so the tokens are the maximal runs |
| Text.Strip | ats_checker/services.py:155 | `strip()` removes exactly the leading and trailing whitespace |
| ResumeContent.ScalarSectionsIgnored | ats_checker/services.py:292-305 | number, boolean and null sections contribute no text: dropping them leaves the flattened text unchanged |
| ResumeContent.StringSectionVerbatim | ats_checker/services.py:294-296 | a string section appears verbatim in the flattened text, followed by a space |
| ResumeContent.SectionsTextAppend | ats_checker/services.py:293-305 | the text of consecutive sections is the concatenation of their texts, in dict order |
| ResumeContent.Contains | ats_checker/services.py:186-188 | `section in content` raises for numbers, booleans and None; it is key membership for dicts, substring for strings and element membership for lists |
| KeywordMatching.FindWord | ats_checker/services.py:148 | the search returns the leftmost whole-word occurrence at or after the start, or none exists |
| KeywordMatching.MatchKeyword | ats_checker/services.py:139-158 | a keyword is found iff it occurs case-insensitively as a whole word in the resume text; an unfound keyword has context `''` |
| KeywordMatching.ContextHoldsKeyword | ats_checker/services.py:153-155 | a found keyword's context is the stripped stretch between the period before its first whole-word occurrence (or the start) and the next period (or the end); it has no period and contains the keyword as a whole word |
| KeywordMatching.MatchAll | ats_checker/services.py:139-158 | one row per keyword, in keyword order; each names its keyword, is found iff the text holds it as a whole word, and has an empty context when not found |
| KeywordMatching.FoundCount | ats_checker/services.py:169-170 | matched_keywords is at most total_keywords, equals it iff all are found, and is 0 iff none is found |
| KeywordMatching.WeightFacts | ats_checker/services.py:136-149 | matched weight is at most total weight, total weight is positive for any keyword, and they are equal iff all are found |
| KeywordMatching.KeywordScore | ats_checker/services.py:161-164 | the keyword score lies in [0,100]; it is 100 iff there are keywords and all are found, and 0 iff none is found |
| AtsAnalyzer.SectionsFound | ats_checker/services.py:186-188 | found sections are the required sections present in the content, in required order |
| AtsAnalyzer.SectionsMissing | ats_checker/services.py:197 | missing sections are the required sections not found, in required order |
| AtsAnalyzer.AnalyzeStructure | ats_checker/services.py:176-200 | fails exactly for number, boolean or null content; otherwise found and missing partition the three required sections in order, and the score is 100·found/3 |
| AtsAnalyzer.StructurePartition | ats_checker/services.py:181-197 | each required section is in exactly one list; the score is in [0,100], 100 iff none is missing, 0 iff none is found |
| AtsAnalyzer.KeywordStep | ats_checker/services.py:125-174 | no keywords gives score 0 and no report; otherwise the report lists every keyword, and matched is at most total |
| AtsAnalyzer.OverallScore | ats_checker/services.py:61 | the stored score is the largest integer not above 0.6k + 0.25s + 0.15f |
| AtsAnalyzer.OverallBounds | ats_checker/services.py:58-61 | with formatting 80 and the other scores in [0,100], the overall score is between 12 and 97 |
| AtsAnalyzer.TruncatesNotRounds | ats_checker/services.py:61 | scores 75, 200/3 and 80 give 73 although the exact sum is at least 73.5 |
| AtsAnalyzer.MissingKeywordList | ats_checker/services.py:225-226 | the listed keywords are exactly the unfound high or medium importance keywords |
| AtsAnalyzer.MissingKeywordsInOrder | ats_checker/services.py:225-226 | the listed keywords keep keyword order |
| AtsAnalyzer.GenerateSuggestions | ats_checker/services.py:218-247 | a keyword suggestion iff some keyword is listed, then a section suggestion iff some section is missing, with the exact messages |
| AtsAnalyzer.KeywordRow | ats_checker/services.py:268-275 | a keyword row belongs to section "general", has empty original text and is unapplied |
| AtsAnalyzer.SectionRow | ats_checker/services.py:277-284 | a section row belongs to that section, has empty original text and is unapplied |
| AtsAnalyzer.ExpandSuggestions | ats_checker/services.py:262-284 | every saved row starts unapplied with empty original text |
| AtsAnalyzer.RowsPerItem | ats_checker/services.py:262-284 | one row per missing keyword followed by one row per missing section |
| AtsAnalyzer.Analyze | ats_checker/services.py:43-86 | the analysis fails iff the content is a number, boolean or null, and then scores 0; otherwise the score is in [12,97], formatting is 80, there are at most two suggestions and 20 keyword rows, and there is a keyword report iff there are keywords |
| AtsAnalyzer.AnalyzeScore | ats_checker/services.py:52-61 | for string, list or dict content the analysis succeeds and stores the truncated weighted sum of the keyword, structure and formatting scores, with one keyword row per keyword |
| AtsAnalyzer.AnalyzeSuggestions | ats_checker/services.py:64-76 | for string, list or dict content the analysis suggests exactly the missing keywords and sections and saves one row per listed item |
| AtsAnalyzer.AnalyzeStored | ats_checker/services.py:312-326 | an unknown score id yields nothing; a known one is analysed, failing with score 0 exactly for number, boolean or null content and otherwise storing a score in [12,97] |
| AtsAnalyzer.ApplySuggestion | ats_checker/services.py:329-354 | true iff the suggestion exists and is unapplied; then only it changes, to applied; otherwise nothing changes |
| AtsAnalyzer.ApplyIdempotent | ats_checker/services.py:336-348 | applying twice equals applying once, and the second attempt answers false |
| SubscriptionModels.SubStatusCodes | subscriptions/models.py:33-42 | subscription status codes and statuses correspond one to one |
| SubscriptionModels.TxStatusCodes | subscriptions/models.py:70-75 | transaction status codes and statuses correspond one to one |
| SubscriptionModels.PaymentMethodCodes | subscriptions/models.py:62-68 | payment method codes and methods correspond one to one |
| SubscriptionModels.NewSubscription | subscriptions/models.py:40-45 | a new subscription is pending, without dates or key, and renews automatically only when asked to |
| SubscriptionModels.NewTransaction | subscriptions/models.py:77-82 | a new transaction is pending, with currency INR unless another is given |
| SubscriptionModels.NewReferralBonus | subscriptions/models.py:101-105 | a new bonus is unapplied and worth 6 months unless another number is given |
| SubscriptionSignals.UpdateSubscriptionDates | subscriptions/signals.py:29-61 | an unsaved or unstored subscription, or one whose status did not change, is saved unchanged; only dates ever change |
| SubscriptionSignals.ActivationDates | subscriptions/signals.py:41-48 | becoming active keeps an existing start or starts today, and ends 30·months after the start when the plan has a duration |
| SubscriptionSignals.CancelExpireDates | subscriptions/signals.py:51-58 | becoming cancelled changes no date; becoming expired ends today and keeps the start |
| SubscriptionSignals.UpdateDatesSettles | subscriptions/signals.py:33-58 | saving again after the handler ran changes nothing |
| SubscriptionSignals.OnTransactionSaved | subscriptions/signals.py:65-83 | the subscription is changed only when a non-new completed transaction pays for a non-active one; an active one is untouched |
| SubscriptionSignals.CompletionActivates | subscriptions/signals.py:69-83 | a completed payment activates its subscription from today to today + 30·months, changing nothing else |
| SubscriptionSignals.OnReferralBonusSaved | subscriptions/signals.py:94-108 | the bonus keeps its referrer, referral and months; it becomes applied only by changing |
| SubscriptionSignals.BonusApplication | subscriptions/signals.py:98-108 | a new unapplied bonus on an active subscription with an end date moves only that end by 30·months and is marked applied; otherwise nothing changes |
| SubscriptionSignals.DefaultBonusExtends | subscriptions/models.py:104 | a default bonus extends the end date by 180 days |
| SubscriptionViews.Cancel | subscriptions/views.py:74-87 | only an active subscription can be cancelled, with the exact error otherwise; only the status changes |
| SubscriptionViews.Renew | subscriptions/views.py:90-106 | only an expired or cancelled subscription can be renewed, with the exact error otherwise; only the status changes |
| SubscriptionViews.CancelRenewRoundTrip | subscriptions/views.py:80-102 | the view's status write alone: renewing undoes cancelling, and cancelling undoes renewing a cancelled subscription |
| SubscriptionViews.CancelRenewThroughHook | subscriptions/signals.py:40-52 | through the pre-save hook, cancelling keeps both dates but renewing resets the end to start + 30·months, so the record comes back unchanged exactly when its end was already that |
| SubscriptionViews.BonusLostOnCancelRenew | subscriptions/signals.py:98-103 | a one-month subscription whose end a bonus moved to day 210 ends on day 30 again after cancelling and renewing |
| SubscriptionViews.ProcessPayment | subscriptions/views.py:140-162 | only a pending transaction can be processed; it becomes completed and its subscription, if any, active |
| SubscriptionViews.NewTransactionIsPayable | subscriptions/views.py:146 | a freshly created transaction can be processed |
| SubscriptionViews.PaymentSettlesSubscription | subscriptions/views.py:152-159 | after the payment and its save hooks, the subscription is active; an active one is unchanged, any other starts today and ends 30·months later |
| SubscriptionViews.RenewSettlesSubscription | subscriptions/views.py:102-103 | after the renewal's save hook the subscription is active, keeps an existing start date (today only when it had none), and ends 30·months after that start; nothing else changes |
| SubscriptionViews.RenewLapsedExample | subscriptions/signals.py:41-48 | a one-month subscription started on day 0 and renewed on day 100 is active but ends on day 30, so it does not count on day 100 |
| SubscriptionViews.VisiblePlans | subscriptions/views.py:30-40 | admins see all plans; others see exactly the active ones, in order, each as often as stored |
| SubscriptionViews.VisibleSubscriptions | subscriptions/views.py:51-57 | admins see all subscriptions; others see exactly their own, in order, each as often as stored |
| SubscriptionViews.VisibleTransactions | subscriptions/views.py:117-123 | admins see all transactions; others see exactly their own, in order, each as often as stored |
| SubscriptionViews.VisibleBonuses | subscriptions/views.py:173-179 | admins see all bonuses; others see exactly those they earned as referrer, in order, each as often as stored |
| Users.RoleCodes | users/models.py:13-19 | role codes and roles correspond one to one |
| Users.CurrentSubscription | users/models.py:44-53 | none iff not subscribed; otherwise the first listed subscription that is active with an end date not before today |
| Users.CurrentIsNewest | users/models.py:50-53 | listed newest first, the current subscription is the most recently created one that counts |
| Users.NewSubscriptionDoesNotCount | users/models.py:39-42 | a newly created subscription does not make its user subscribed |
| Users.GetSubscriptionStatus | users/models.py:55-83 | is_subscribed agrees with the property; without a subscription every field is empty and days_remaining is 0; otherwise status is active and days_remaining = end − today ≥ 0 |
| Users.StatusDescribesCurrent | users/models.py:62-72 | the status describes the current subscription's id, plan, dates and renewal flag |
| Permissions.IsAdminUser | users/permissions.py:8-9 | granted iff the requester is an admin; an anonymous requester has no role and raises |
| Permissions.IsOwnerOrAdminView | users/permissions.py:16-17 | granted iff the requester is authenticated |
| Permissions.IsOwnerOrAdminObject | users/permissions.py:19-32 | admins always pass; otherwise an object with an owner passes iff owned by the requester, a user object iff it is the requester, anything else fails |
| Permissions.NonAdminNeedsOwnership | users/permissions.py:25-32 | a non-admin is granted only for an object linked to them or their own account, and an object with an empty user link is denied |
| Permissions.AdminImpliesObjectAccess | users/permissions.py:4-32 | an admin passes both checks, and the object check answers exactly when the view check passes |
| Referrals.FirstOpen | users/signals.py:29-33 | the chosen referral is the first unsuccessful one without a referred user |
| Referrals.CheckReferralOnRegistration | users/signals.py:23-52 | nothing changes unless a new account with a non-empty e-mail registers |
| Referrals.CreditsFirstOpen | users/signals.py:29-52 | at most one referral changes, the first open one, which now records the account and succeeds; nothing changes when none is open |
| Referrals.IndependentOfEmail | users/signals.py:29 | which referral is credited does not depend on the e-mail address |
| Referrals.OneReferralPerRegistration | users/signals.py:31-52 | the number of open referrals drops by at most one |
| ResumeVersions.MaxNumber | resumes/serializers.py:74 | the latest version number bounds every number and is one of them |
| ResumeVersions.NextNumber | resumes/serializers.py:75 | the next number is at least 1 and above every existing number |
| ResumeVersions.CreateResume | resumes/serializers.py:45-56 | a new resume gets its key, is active unless told otherwise, and has exactly one version, numbered 1, holding its content, which defaults to an empty dict |
| ResumeVersions.UpdateResume | resumes/serializers.py:67-84 | supplied fields are written; supplied content, even unchanged, appends a version with the next number; no content leaves the history alone; numbering stays increasing |
| ResumeVersions.FindVersion | resumes/views.py:69 | finds a version of this resume with the given id, or there is none |
| ResumeVersions.RestoreVersion | resumes/views.py:58-88 | a missing id is a 400, an id of no version of this resume a 404; otherwise the content becomes the version's and a copy is appended with the next number; numbering stays increasing |
| ResumeVersions.HistoryAppendOnly | resumes/serializers.py:78-82 | update and restore keep the existing history as a prefix |
| ResumeVersions.RestoreLatestDuplicates | resumes/views.py:74-85 | restoring the newest version appends a copy numbered one higher |
| ResumeVersions.VisibleResumes | resumes/views.py:21-27 | admins see all resumes; others see exactly their own, in order, each as often as stored |
| Templates.SectionFields | templates/models.py:50-51 | an omitted section `order` is stored as 0 and an omitted `is_required` as false |
| Templates.NewSections | templates/serializers.py:70-71 | one section per supplied entry, in order, belonging to the template, with the omitted fields defaulted |
| Templates.CreateTemplate | templates/serializers.py:66-73 | a new template takes the supplied fields, with empty description, thumbnail and styles, no category, not premium and active unless given; one new section per entry is appended to the listing |
| Templates.CreateSectionsExact | templates/serializers.py:66-73 | a new template's stored sections are exactly the supplied ones and no other section changes; listed, they are the supplied ones sorted by `order`, equal orders in supplied order |
| Templates.ApplyFields | templates/serializers.py:78-81 | an update with no fields leaves the template as it was |
| Templates.UpdateTemplate | templates/serializers.py:75-92 | an empty or absent section list keeps every section; a non-empty one replaces the template's sections |
| Templates.UpdateWritesSuppliedFields | templates/serializers.py:78-81 | every supplied field is written and every other field kept |
| Templates.ReplaceSections | templates/serializers.py:84-90 | after a replacing update the template's stored sections are exactly the supplied ones, listed sorted by `order` with equal orders in supplied order, and other templates' sections are unchanged |
| Templates.ListTemplates | templates/views.py:58-75 | listed templates are the active ones matching a non-empty category and a present premium parameter, in order |
| Templates.PremiumParameter | templates/views.py:70-73 | the parameter reads as true exactly when it is the four letters of "true", each in either case; the listed templates are then premium, and for any other value non-premium |
| Templates.PremiumSpellings | templates/views.py:70-73 | "TRUE" and "True" select premium templates; "1" and "yes" select non-premium ones |
| Templates.ListSections | templates/views.py:96-107 | every section, or exactly the template's sections when the parameter is non-empty, each as often as stored, sorted by `order` |
| Templates.SectionsAction | templates/views.py:77-85 | a template's sections are answered exactly when the template is one its listing shows for the request's parameters (active, matching category and premium filters), and are then that template's sections, each as often as stored, sorted by `order`; any other template answers 404 |
| Templates.SortSorted | templates/models.py:56 | the section listing is in ascending `order` |
| Templates.SortPermutes | templates/models.py:56 | the section listing holds every section exactly as often as the table does |
| Templates.SortRanked | templates/models.py:56 | sections listed in key order are sorted by `order`, with equal orders kept in key order |

## Left out

- Persistence: saving, querying and deleting rows are modelled as values and sequences. Database keys are parameters, and so is `today`.
- Signal dispatch: the interleaving of saves with their pre- and post-save hooks is modelled only in `SubscriptionViews.PaymentSettlesSubscription` and `SubscriptionViews.RenewSettlesSubscription`.
- Activity logging: the `UserActivity` records every signal handler creates, including `resumes/signals.py`, carry no behaviour.
- Unicode: word characters, whitespace and lower-casing are the ASCII ones. Python's Unicode `\w`, `str.isspace` and `str.lower` are wider.
- Rendering: `str()` of numbers, booleans, null, lists and dicts is the `render` parameter, not Python's formatting.
- Floating point: IEEE effects in the scores are not modelled. In particular a double just below an integer truncates one lower than the exact real does.
- Column widths and validation: the model does not enforce column lengths (e.g. `max_length=3` on currency), choice validation of request input, password rules or JWT. In particular a job-description word longer than 100 characters becomes a keyword, and on a database that enforces `max_length=100` of `KeywordMatch.keyword` (ats_checker/models.py:36) saving its row raises after the score was saved, so the analysis stores 0; `AtsAnalyzer.Analyze` treats such a word like any other.
- Premium check in `ats_checker/serializers.py`: it filters on a plan field that does not exist, so it has no stated behaviour.
- Two clock reads: `current_subscription` and `days_remaining` read the clock separately. The model reads one `today` for both.
- Non-numeric ids: a `version_id`, `category` or `template` query parameter that is not a number fails inside the database layer. The model takes these parameters as numbers, with `None` for absent or empty.
- Owner-less objects: `ReferralBonus` has no `user` attribute, so `Permissions.IsOwnerOrAdminObject` denies it to non-admins. The model covers this case as an object without owner or user link.
- ats_checker views and serializers: how a score record is created and the request plumbing are not modelled. `AtsAnalyzer.AnalyzeStored` stands for the entry point.
- Ties in the section listing: `ordering = ['order']` leaves the relative order of sections with equal `order` to the database. The model lists them in table (key) order.
- SubscriptionViews.CancelRenewRoundTrip: the round trip is stated for the view's status writes only and ignores the pre-save hook; through the hook, renewing recomputes the end date from the start, so bonus days added to the end are lost (`SubscriptionViews.CancelRenewThroughHook`).
- Signal effects on renewal: `SubscriptionViews.Renew` states only the view's status change; what the pre-save hook then does to the dates is stated by `SubscriptionViews.RenewSettlesSubscription`.
- Split: its own contract does not say the tokens are the maximal runs. `Text.SplitInterleave` states this for every text built from words and whitespace; that every string has such a layout is not proved.
- Tokens: its own contract says only what each token is made of. `Keywords.TokensOfWords` states that the tokens are the description's words, in order, for descriptions made of lower-case words and whitespace.
- Referrals.CheckReferralOnRegistration: its own contract states only the no-change cases and the length. The crediting itself is stated by `Referrals.CreditsFirstOpen`.
