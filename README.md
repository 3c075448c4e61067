# NewsNuggets — a verified model of its core

NewsNuggets collects news articles, summarises and categorises them, and
serves them to several front ends. This project models the logic those parts
share, one Dafny module per source file:

- The Python back end:
  - the Bangkok Post scraper lambda and its notebook twin;
  - the collector that calls two news APIs and stores their records;
  - the paging endpoint over the articles table;
  - the summarise-and-categorise parser of the language model's reply;
  - the login and sign-up lambdas over the users table.
- The TypeScript apps:
  - the NewsNuggets feed hook: paging, merging, categories, and the "For You"
    list built from visit counts;
  - the older app's mock news service and its paging hook;
  - the mock authentication service;
  - the two React authentication contexts;
  - the news-platform API and its category filter;
  - the login and sign-up screens' form checks;
  - the category label and the relative-age text of a news card;
  - the API-record copy of the NewsNuggets article type.

Code that changes state step by step is modelled imperatively:
- a hook, a context, a form or a service becomes a `class` whose methods
  update its fields;
- a Python loop becomes a `method` with a `while` loop, proved against a
  function.

Pure code becomes functions with lemmas. The network, storage, clocks,
randomness, hashing and HTML parsing are parameters of the operations that
use them.

Shared helpers:
- `Wrappers`: Option and Result.
- `Strings`: ASCII whitespace and case, splitting, searching, decimal text.
- `Seqs`: filtering, subsequences, a stable descending sort, top-k by key.
- `JsonValue`: JSON values with Python and JavaScript truthiness.

## Model

| member | source | states |
|---|---|---|
| Feed.Bump | app/NewsNuggets/src/hooks/useNews.ts:52-55 | the category's count goes up by one (an absent one counts as 0), every other count is unchanged, the category joins the keys, and distinct keys stay distinct |
| Feed.TrackCategoryVisit | app/NewsNuggets/src/hooks/useNews.ts:48-62 | "all" leaves the counts unchanged; any other category's count goes up by exactly one, all other counts are unchanged, and the keys stay distinct |
| Feed.ExtractCategories | app/NewsNuggets/src/hooks/useNews.ts:65-76 | the loop yields exactly the categories-seen list |
| Feed.CategoriesSeenSpec | app/NewsNuggets/src/hooks/useNews.ts:65-76 | "all" comes first, no category repeats, the members are "all" and the non-empty article categories, in order of first appearance |
| Feed.FilterNewsByCategory | app/NewsNuggets/src/hooks/useNews.ts:79-82 | "all" returns the list itself; otherwise exactly the articles of that category, each as often as in the input, in input order |
| Feed.TopCategoriesSize | app/NewsNuggets/src/hooks/useNews.ts:87-90 | min(3, number of counted categories) top categories, each of them counted |
| Feed.TopCategoriesDistinct | app/NewsNuggets/src/hooks/useNews.ts:87-90 | no category is chosen twice |
| Feed.TopCategoriesMaximal | app/NewsNuggets/src/hooks/useNews.ts:87-90 | no category left out has more visits than a chosen one |
| Feed.ForYouWithoutVisits | app/NewsNuggets/src/hooks/useNews.ts:93-97 | without visits: the ten newest articles (all when fewer), newest first, none left out newer than one kept, ties in input order |
| Feed.ForYouWithVisits | app/NewsNuggets/src/hooks/useNews.ts:99-107 | with visits: a stable newest-first sort of the articles whose category is a top category, with no count limit |
| Feed.ForYouMembership | app/NewsNuggets/src/hooks/useNews.ts:99-102 | with visits, an article is listed exactly when its category is a top category |
| Feed.MergeNewSpec | app/NewsNuggets/src/hooks/useNews.ts:140-144 | the current list stays at the front; after it come exactly the incoming articles whose id is new, with their multiplicity, in page order |
| Feed.FeedHook.constructor | app/NewsNuggets/src/hooks/useNews.ts:9-31 | the initial state: no news, only "all" as a category, stored visit counts or none, more pages expected |
| Feed.FeedHook.BeginLoad | app/NewsNuggets/src/hooks/useNews.ts:112-118 | loading starts, the error clears, and the request cursor is none on a reset or the last key otherwise; nothing else changes |
| Feed.FeedHook.CompleteLoad | app/NewsNuggets/src/hooks/useNews.ts:123-160 | a failure sets the error and keeps the lists; a page sets the cursor, sets hasMore exactly when the cursor is present, and replaces (reset) or merges the list; the categories are recomputed on a reset and "For You" is recomputed; the flags clear |
| Feed.FeedHook.ApplyPage | app/NewsNuggets/src/hooks/useNews.ts:129-153 | the page branch alone: cursor, hasMore, replaced or merged list, categories and "For You" as above; the flags and the error are unchanged |
| Feed.FeedHook.Refresh | app/NewsNuggets/src/hooks/useNews.ts:171-176 | refreshing and loading start, the error and the cursor clear, and the request has no cursor |
| Feed.FeedHook.HandleCategoryChange | app/NewsNuggets/src/hooks/useNews.ts:179-182 | the category is set, its visit is tracked, and the counts are stored unless it is "all" |
| Feed.FeedHook.HandleLoadMore | app/NewsNuggets/src/hooks/useNews.ts:185-189 | a load starts exactly when none is running and more pages exist, from the last key; otherwise nothing changes |
| NuggetsArticle.CopyToNewsArticle | app/NewsNuggets/src/types/news.ts:13-25 | every field is copied under its new name; the image is absent exactly when the record has none or an empty one |
| NuggetsArticle.CopyToNewsArticleRoundTrip | app/NewsNuggets/src/types/news.ts:13-25 | record to article to record, and article to record to article, give back the original (except an empty image) |
| PreferenceCounts.Increment | app/news-platform/src/contexts/AuthContext.tsx:158 | the category's count goes up by one (absent counts as 0), others are unchanged, and the category joins the keys |
| PreferenceCounts.IncrementCommutes | app/news-platform/src/contexts/AuthContext.tsx:158 | two clicks give the same counts in either order |
| PlatformAuth.InitialState | app/news-platform/src/contexts/AuthContext.tsx:25-34 | the stored user and token are restored; authenticated exactly when the token is non-empty |
| PlatformAuth.IncrementPreference | app/news-platform/src/contexts/AuthContext.tsx:155-159 | counts start from none when the user has no preferences; the clicked one goes up by one and no other changes |
| PlatformAuth.WithPreference | app/news-platform/src/contexts/AuthContext.tsx:152-165 | no user: no change; otherwise only the preferences change, by one click |
| PlatformAuth.WithPreferenceCommutes | app/news-platform/src/contexts/AuthContext.tsx:152-165 | two preference updates commute |
| PlatformAuth.LoggedIn | app/news-platform/src/contexts/AuthContext.tsx:74-87 | authenticated with a non-empty token, and the user carries the reply's id and name (none when missing), the email and empty preferences |
| PlatformAuth.SignedUp | app/news-platform/src/contexts/AuthContext.tsx:122-135 | authenticated with a non-empty token, and the user carries the reply's id (none when missing), the fixed username, the name and the email, with no preferences |
| PlatformAuth.AuthProvider.Sync | app/news-platform/src/contexts/AuthContext.tsx:36-48 | storage is brought in line with the state, which is unchanged |
| PlatformAuth.AuthProvider.constructor | app/news-platform/src/contexts/AuthContext.tsx:25-48 | the initial state is restored from storage, and storage is in sync |
| PlatformAuth.AuthProvider.Login | app/news-platform/src/contexts/AuthContext.tsx:50-94 | success exactly when the API replied; then the logged-in state, otherwise no change; storage in sync |
| PlatformAuth.AuthProvider.Signup | app/news-platform/src/contexts/AuthContext.tsx:96-142 | success exactly when the response is ok and its body parses; then the signed-up state, with the reply's id or none when it has none, otherwise no change; storage in sync |
| PlatformAuth.AuthProvider.Logout | app/news-platform/src/contexts/AuthContext.tsx:144-150 | the logged-out state, with both storage keys removed |
| PlatformAuth.AuthProvider.UpdatePreferences | app/news-platform/src/contexts/AuthContext.tsx:152-165 | the state becomes the one-click preference update of the old state; storage in sync |
| MockNewsService.MockArticlesSpec | NewsAppOld/src/services/newsService.ts:7-34 | 50 fixtures: ids "article-i", categories cycling through the seven, an image on every third, published one hour apart from now |
| MockNewsService.MockArticleIdsDistinct | NewsAppOld/src/services/newsService.ts:7-34 | no two fixtures share an id |
| MockNewsService.FilteredSpec | NewsAppOld/src/services/newsService.ts:54-56 | "all" keeps every article; otherwise exactly those of the category, with multiplicity, in order |
| MockNewsService.UnknownCategoryEmpty | NewsAppOld/src/services/newsService.ts:54-56 | a category outside the seven finds nothing |
| MockNewsService.FetchMockNews | NewsAppOld/src/services/newsService.ts:46-69 | at most ten articles; page p ≥ 1 is the p-th run of ten of the filtered list; hasMore exactly when more follow; a next page is given exactly then, as p + 1 |
| MockNewsService.PastTheEnd | NewsAppOld/src/services/newsService.ts:59-62 | a page past the end is empty and ends the paging |
| MockNewsService.PageZero | NewsAppOld/src/services/newsService.ts:59-62 | page 0 slices from -10 to 0: it is empty yet says more follow |
| MockNewsService.FirstPagesPrefix | NewsAppOld/src/services/newsService.ts:59-62 | the first k pages are the first 10k filtered articles |
| MockNewsService.PagesFromSuffix | NewsAppOld/src/services/newsService.ts:59-67 | following the pages from p on reads the filtered list from 10(p - 1) to the end |
| MockNewsService.PagingReadsAll | NewsAppOld/src/services/newsService.ts:59-67 | following pages from 1 reads every filtered article exactly once, in order |
| OldNewsHook.NewsHook.constructor | NewsAppOld/src/hooks/useNews.ts:5-12 | page 1, no news, more expected, and the list shows the first zero pages |
| OldNewsHook.NewsHook.BeginLoad | NewsAppOld/src/hooks/useNews.ts:36-40 | loading starts, the error clears, and the request is page 1 on a reset or the current page otherwise |
| OldNewsHook.NewsHook.CompleteLoad | NewsAppOld/src/hooks/useNews.ts:42-55 | a failure sets the error; a page replaces or extends the list, takes its hasMore and advances the page; a list showing the first pages keeps showing them; the flags clear |
| OldNewsHook.NewsHook.ApplyPage | NewsAppOld/src/hooks/useNews.ts:42-49 | the page branch alone, with the same list, hasMore, page and shown-pages facts |
| OldNewsHook.NewsHook.HandleRefresh | NewsAppOld/src/hooks/useNews.ts:67-70 | refreshing and loading start, and page 1 of the current category is requested |
| OldNewsHook.NewsHook.HandleCategoryChange | NewsAppOld/src/hooks/useNews.ts:62-75 | the category is set, and a reset load of page 1 starts exactly when it changed |
| OldNewsHook.NewsHook.HandleLoadMore | NewsAppOld/src/hooks/useNews.ts:78-82 | a load of the current page starts exactly when none is running and more exist |
| OldNewsHook.ShowsAllWhenDone | NewsAppOld/src/hooks/useNews.ts:39-49 | once a page says nothing follows, the pages read are every article of the category |
| MockAuth.CreateMockSession | NewsAppOld/src/services/mockAuthService.ts:24-38 | the session carries the user's id and email and expires 24 hours after creation |
| MockAuth.SessionLifetime | NewsAppOld/src/services/mockAuthService.ts:24-38 | a fresh session is unexpired exactly until 24 hours have passed |
| MockAuth.FindUser | NewsAppOld/src/services/mockAuthService.ts:95-97 | a found user is in the table with that email and password; none is found exactly when no user matches both |
| MockAuth.EmailTakenSpec | NewsAppOld/src/services/mockAuthService.ts:54-55 | the check is true exactly when some user has the email |
| MockAuth.AppendKeepsTable | NewsAppOld/src/services/mockAuthService.ts:54-70 | appending a new email's user keeps ids sequential and emails distinct |
| MockAuth.SignInAfterSignUp | NewsAppOld/src/services/mockAuthService.ts:63-97 | after a sign-up, signing in with the same email and password finds the new user |
| MockAuth.AuthService.constructor | NewsAppOld/src/services/mockAuthService.ts:11-21 | the single fixture user `user-1`, no listeners, and the stored session as given |
| MockAuth.AuthService.SignUp | NewsAppOld/src/services/mockAuthService.ts:51-89 | fails exactly when the email is taken, changing nothing; otherwise appends the user with the next id and stores the user and a new session |
| MockAuth.AuthService.SignIn | NewsAppOld/src/services/mockAuthService.ts:92-123 | fails exactly when no user matches; otherwise stores the matched user and a new session; the table is unchanged |
| MockAuth.AuthService.SignOut | NewsAppOld/src/services/mockAuthService.ts:126-130 | both storage keys are removed |
| MockAuth.AuthService.GetSession | NewsAppOld/src/services/mockAuthService.ts:133-149 | an expired stored session is removed and none is returned; otherwise the stored one is returned |
| MockAuth.AuthService.Subscribe | NewsAppOld/src/services/mockAuthService.ts:155-156 | the callback is appended to the listeners |
| MockAuth.AuthService.Unsubscribe | NewsAppOld/src/services/mockAuthService.ts:166-168 | every copy of the callback is removed and the other listeners keep their order |
| MockAuth.AuthService.GoogleSignIn | NewsAppOld/src/services/mockAuthService.ts:174-187 | signs in the fixture user and notifies every listener once, in order |
| MockAuth.Notify | NewsAppOld/src/services/mockAuthService.ts:182-184 | one notification per listener, in listener order |
| MockAuth.NotifyEach | NewsAppOld/src/services/mockAuthService.ts:182-184 | the loop sends exactly those notifications |
| MockAuth.NotifyAppend | NewsAppOld/src/services/mockAuthService.ts:182-184 | notifying two lists in turn equals notifying their concatenation |
| MockAuth.UnsubscribeSpec | NewsAppOld/src/services/mockAuthService.ts:167 | the callback is gone, every other listener keeps its multiplicity and order |
| AppAuth.Parse | app/news-app/src/contexts/AuthContext.tsx:36-42 | parsing the stored user data gives a user that serializes back to it |
| AppAuth.AuthProvider.constructor | app/news-app/src/contexts/AuthContext.tsx:12-29 | logged out, with storage as given |
| AppAuth.AuthProvider.Mount | app/news-app/src/contexts/AuthContext.tsx:32-43 | a stored token and user restore an authenticated state with that user; otherwise nothing changes |
| AppAuth.AuthProvider.Authenticate | app/news-app/src/contexts/AuthContext.tsx:59-67 | authenticated with the reply's token, stored, and with the user whose preferences are the given counts |
| AppAuth.AuthProvider.Login | app/news-app/src/contexts/AuthContext.tsx:45-72 | success exactly when the API replied; then the reply's user with its preferences or empty ones; otherwise nothing changes |
| AppAuth.AuthProvider.Signup | app/news-app/src/contexts/AuthContext.tsx:74-99 | success exactly when the API replied; then the reply's user with empty preferences |
| AppAuth.AuthProvider.Logout | app/news-app/src/contexts/AuthContext.tsx:101-105 | logged out, with both storage keys removed |
| AppAuth.AuthProvider.UpdatePreferences | app/news-app/src/contexts/AuthContext.tsx:107-124 | with a user, only the preference counts change, by one click, in place when the object exists |
| PlatformNews.GetNewsByCategory | app/news-platform/src/api/news.ts:56-67 | no category keeps all; otherwise exactly the items of the category (case-insensitive), with multiplicity, in order |
| PlatformNews.GetNewsByCategoryIdempotent | app/news-platform/src/api/news.ts:56-67 | filtering twice equals filtering once |
| PlatformNews.SearchNews | app/news-platform/src/api/news.ts:69-85 | a blank query keeps all; otherwise exactly the items with the lower-cased query in a text field, with multiplicity, in order |
| PlatformNews.SearchNewsIdempotent | app/news-platform/src/api/news.ts:69-85 | searching twice equals searching once |
| PlatformNews.RankByPreferencesSpec | app/news-platform/src/api/news.ts:40-49 | the ten best-scored items (all when fewer), best first, none left out scoring above one kept, ties in input order |
| PlatformNews.PersonalizedNews | app/news-platform/src/api/news.ts:31-49 | no preferences: five items (all when fewer) drawn from the input; otherwise the preference ranking |
| PlatformNews.NewsApi.constructor | app/news-platform/src/api/news.ts:6 | the API is used, over the given mock items |
| PlatformNews.NewsApi.FetchNews | app/news-platform/src/api/news.ts:8-21 | the API is called exactly while it has not failed; a failure switches to mock data for good; the result is the API's or the shared mock array; the mock array is unchanged |
| PlatformNews.NewsApi.FetchPersonalizedNews | app/news-platform/src/api/news.ts:24-54 | the personalised selection of what the fetch returned; on the mock path without preferences the shared mock array is left in the shuffled order, otherwise it is unchanged |
| PlatformCategoryFilter.SortedUniqueSpec | app/news-platform/src/components/CategoryFilter.tsx:22-24 | strictly sorted, no repeats, and exactly the given categories |
| PlatformCategoryFilter.SortedUniqueCanonical | app/news-platform/src/components/CategoryFilter.tsx:22-24 | two lists with the same members give the same category list |
| PlatformCategoryFilter.CategoryFilter.constructor | app/news-platform/src/components/CategoryFilter.tsx:16 | no categories, and the selection as given |
| PlatformCategoryFilter.CategoryFilter.OnNews | app/news-platform/src/components/CategoryFilter.tsx:19-28 | a non-empty news list sets the sorted distinct categories; an empty one changes nothing |
| PlatformCategoryFilter.CategoryFilter.HandleCategoryClick | app/news-platform/src/components/CategoryFilter.tsx:30-37 | the selection is set, and a non-empty category counts one preference click |
| CategoryLabel.FormatCategoryName | NewsAppOld/src/components/CategoryFilter.tsx:23-26 | "all" becomes "All"; otherwise the first letter is upper-cased and the rest kept |
| CategoryLabel.FormatCategoryNameIdempotent | NewsAppOld/src/components/CategoryFilter.tsx:23-26 | labelling a label changes nothing |
| CategoryLabel.FormatCategoryNameCollisions | NewsAppOld/src/components/CategoryFilter.tsx:23-26 | two categories share a label only when they are "all" and "All" or differ only in the case of their first letter |
| RelativeTime.ElapsedHours | NewsAppOld/src/components/NewsCard.tsx:22 | the whole hours elapsed, rounded down |
| RelativeTime.AgeOf | NewsAppOld/src/components/NewsCard.tsx:22-29 | hours while under a day has passed, otherwise at least one whole day, each rounded down |
| RelativeTime.Render | NewsAppOld/src/components/NewsCard.tsx:25-28 | the count, a space, the unit word "hour" or "day" with an "s" exactly when the count is not 1, then " ago" |
| RelativeTime.SingularAges | NewsAppOld/src/components/NewsCard.tsx:24-28 | "1 hour" exactly in the second hour and "1 day" exactly from 24 to 47 hours |
| RelativeTime.FormatDate | NewsAppOld/src/components/NewsCard.tsx:19-30 | under a day: the whole hours elapsed and "hour ago" or "hours ago"; from a day on: the whole days and "day ago" or "days ago", singular exactly for 1 |
| RelativeTime.FutureDates | NewsAppOld/src/components/NewsCard.tsx:22-25 | a future date reads as a negative number of hours |
| FormChecks.HasEmailShapeIsPattern | NewsApp/src/screens/LoginScreen.tsx:42 | the regular expression matches exactly the texts with a run of non-spaces, '@', non-spaces, '.', non-spaces |
| FormChecks.PatternUnanchored | NewsApp/src/screens/LoginScreen.tsx:42 | the unanchored pattern still matches with anything around a match |
| FormChecks.EmailError | NewsApp/src/screens/LoginScreen.tsx:40-44 | "required" exactly for a blank email, "invalid" exactly for a non-blank one the pattern rejects, none otherwise |
| FormChecks.PasswordError | NewsApp/src/screens/LoginScreen.tsx:46-50 | "required" exactly when empty, "too short" exactly under six characters, none otherwise |
| FormChecks.SpacesPassButBlankEmailDoesNot | NewsApp/src/screens/LoginScreen.tsx:40-50 | six spaces pass as a password but are a missing email |
| LoginScreen.LoginForm.constructor | NewsApp/src/screens/LoginScreen.tsx:32-34 | the prefilled test credentials and no errors |
| LoginScreen.LoginForm.ValidateInputs | NewsApp/src/screens/LoginScreen.tsx:37-54 | both errors are recorded, and the form is valid exactly when the credentials are acceptable |
| LoginScreen.LoginForm.HandleLogin | NewsApp/src/screens/LoginScreen.tsx:56-66 | sign-in is called, once, exactly when the credentials are acceptable |
| LoginScreen.PrefilledIsAcceptable | NewsApp/src/screens/LoginScreen.tsx:32-33 | the prefilled credentials are acceptable |
| LoginScreen.BothErrorsReported | NewsApp/src/screens/LoginScreen.tsx:38-51 | a blank email with an empty password reports both "required" errors |
| SignUpScreen.NameError | app/NewsNuggets/src/screens/SignUpScreen.tsx:49-51 | "required" exactly for a blank name |
| SignUpScreen.ConfirmError | app/NewsNuggets/src/screens/SignUpScreen.tsx:65-69 | "required" exactly when empty, "do not match" exactly when different, none otherwise |
| SignUpScreen.NoErrorsIffAcceptable | app/NewsNuggets/src/screens/SignUpScreen.tsx:41-73 | no field has an error exactly when the four fields are acceptable |
| SignUpScreen.SignUpForm.constructor | app/NewsNuggets/src/screens/SignUpScreen.tsx:29-38 | four empty fields and no errors |
| SignUpScreen.SignUpForm.ValidateInputs | app/NewsNuggets/src/screens/SignUpScreen.tsx:41-73 | all four errors are recorded, and the form is valid exactly when the fields are acceptable |
| SignUpScreen.SignUpForm.HandleSignUp | app/NewsNuggets/src/screens/SignUpScreen.tsx:75-81 | sign-up is called, once, exactly when the fields are acceptable |
| SignUpScreen.ShortAndMismatched | app/NewsNuggets/src/screens/SignUpScreen.tsx:59-69 | a short, mismatched password reports both errors |
| SignUpScreen.SpacesAcceptedAsPassword | app/NewsNuggets/src/screens/SignUpScreen.tsx:59-63 | six spaces are accepted as password and confirmation |
| GetNews.ProjectOrg | mlOps/news-nuggets/lambda/get_news.py:33-39 | a record exactly when the five fields and the source's name exist, holding them |
| GetNews.ProjectData | mlOps/news-nuggets/lambda/get_news.py:44-50 | a record exactly when the five fields exist, holding them |
| GetNews.GetFinalResult | mlOps/news-nuggets/lambda/get_news.py:28-52 | an unknown key gives none; a known key gives the last article's record alone, and raises on an empty or malformed list |
| GetNews.S3Subfolder | mlOps/news-nuggets/lambda/get_news.py:54-59 | the folder of each known key, and a raise for any other |
| GetNews.ObjectKeyParts | mlOps/news-nuggets/lambda/get_news.py:22-25 | the object key splits into folder, date and "news.json" |
| GetNews.DateStampParts | mlOps/news-nuggets/lambda/get_news.py:23 | the date stamp splits into year, month and day, which read back as the given numbers |
| GetNews.LambdaHandler | mlOps/news-nuggets/lambda/get_news.py:7-17 | one save per key under its dated key; a successful call saves its final result; a failed call saves the previous records again; a run stops only where a final result raises |
| GetNews.FailuresRepeatSnoc | mlOps/news-nuggets/lambda/get_news.py:9-17 | appending a save keeps the repeated-records fact |
| GetNewsApi.PythonInt | mlOps/news-nuggets/lambda/getNewsAPI.py:9 | reads exactly the texts that are, once stripped, digits after at most one sign, giving their signed decimal value with leading zeros allowed; anything else raises |
| GetNewsApi.PythonIntNeedsDigit | mlOps/news-nuggets/lambda/getNewsAPI.py:9 | a text without a decimal digit raises |
| GetNewsApi.PythonIntPlusAndZeros | mlOps/news-nuggets/lambda/getNewsAPI.py:9 | "+5" reads as 5 and "007" as 7 |
| GetNewsApi.PythonIntOfIntToString | mlOps/news-nuggets/lambda/getNewsAPI.py:9 | reading a rendered integer gives it back |
| GetNewsApi.Params | mlOps/news-nuggets/lambda/getNewsAPI.py:8 | absent parameters are the empty map |
| GetNewsApi.BuildScanArgs | mlOps/news-nuggets/lambda/getNewsAPI.py:8-14 | the limit is 20 when absent and the read integer otherwise, raising when it cannot be read; the start key is set exactly for a non-empty lastKey |
| GetNewsApi.SuccessBody | mlOps/news-nuggets/lambda/getNewsAPI.py:27-30 | the items (none when absent) and the last key's article id, or null |
| GetNewsApi.LambdaHandler | mlOps/news-nuggets/lambda/getNewsAPI.py:7-36 | raises exactly on an unreadable limit; 500 exactly when the scan fails, with the scan's error text as `error`; 200 with the success body otherwise |
| GetNewsApi.ContinuationKeyForwarded | mlOps/news-nuggets/lambda/getNewsAPI.py:10-14 | a request with a returned key asks the scan to start there, with the given limit |
| Summarize.UserPrompt | mlOps/news-nuggets/summarize_and_categorize.py:24 | the title, " - ", then the description |
| Summarize.AfterColon | mlOps/news-nuggets/summarize_and_categorize.py:36-37 | present exactly when the segment has a ':'; the stripped text up to the next ':' |
| Summarize.ParseContent | mlOps/news-nuggets/summarize_and_categorize.py:35-37 | parses exactly when there are at least three bar-separated segments and the second and third hold a ':'; then the summary and category are the stripped texts after the first ':' of the second and third segments |
| Summarize.ParseThreeSegments | mlOps/news-nuggets/summarize_and_categorize.py:35-37 | a reply of three segments parses from its second and third |
| Summarize.ParseFormatReply | mlOps/news-nuggets/summarize_and_categorize.py:35-37 | a reply in the requested format gives back the stripped summary and category |
| Summarize.SummaryCutAtColon | mlOps/news-nuggets/summarize_and_categorize.py:36 | a summary containing ':' is cut at it |
| Summarize.ReplyContent | mlOps/news-nuggets/summarize_and_categorize.py:35 | a value exactly when "choices" is a non-empty list whose first entry has a "message" object holding a string "content", and then that string |
| Summarize.ReplyContentOfCompletion | mlOps/news-nuggets/summarize_and_categorize.py:35 | a completion reply gives the text of its first choice's message, whatever other fields it carries |
| Summarize.LambdaHandler | mlOps/news-nuggets/summarize_and_categorize.py:31-47 | 500 exactly when the request fails, carrying the exception's text; a parse exactly when the content parses, giving its two fields; a raise otherwise |
| NewsScraper.AfterFirstDashSpec | mlOps/news-nuggets/news_scraper.py:89-91 | the stripped text after the first '-', or the whole text without one |
| NewsScraper.Title | mlOps/news-nuggets/news_scraper.py:84-91 | the stripped og:title when non-empty, the title tag's fallback when empty, a raise when missing |
| NewsScraper.MetaText | mlOps/news-nuggets/news_scraper.py:93-109 | the stated default when the tag is missing, otherwise its stripped content |
| NewsScraper.Content | mlOps/news-nuggets/news_scraper.py:111-116 | the paragraphs joined by single spaces, with a blank prefix and a blank suffix cut off, leaving no edge whitespace; empty for no paragraphs |
| NewsScraper.ContentOfUnpadded | mlOps/news-nuggets/news_scraper.py:111-116 | unpadded paragraphs are joined by single spaces |
| NewsScraper.MonthNumber | mlOps/news-nuggets/news_scraper.py:122 | a month abbreviation in any case gives its number 1 to 12; anything else is refused |
| NewsScraper.MonthNumberOfAbbrev | mlOps/news-nuggets/news_scraper.py:122 | each abbreviation reads as its month |
| NewsScraper.ParseStamp | mlOps/news-nuggets/news_scraper.py:122 | a parsed stamp is a valid date and time |
| NewsScraper.ParseStampOf | mlOps/news-nuggets/news_scraper.py:122 | a rendered stamp parses back to itself |
| NewsScraper.TextAfterColon | mlOps/news-nuggets/news_scraper.py:120 | the whole text when there is no ':' |
| NewsScraper.PublishedAt | mlOps/news-nuggets/news_scraper.py:118-125 | empty for an empty text; otherwise a result exactly when there are two "at" parts and their joined text parses as a stamp, and then the ISO text of that stamp |
| NewsScraper.InfoLineParts | mlOps/news-nuggets/news_scraper.py:120-121 | the site's info text splits into its date and time parts |
| NewsScraper.PublishedAtOfInfoLine | mlOps/news-nuggets/news_scraper.py:118-125 | the site's info text gives the ISO text of the stamp it shows |
| NewsScraper.GetData | mlOps/news-nuggets/news_scraper.py:83-133 | an item exactly when title, paragraphs, info and date can be read, holding each field's reading |
| NewsScraper.ReplaceNbsp | mlOps/news-nuggets/news_scraper.py:71-72 | every non-breaking space becomes a space and nothing else changes |
| NewsScraper.CleanText | mlOps/news-nuggets/news_scraper.py:71-72 | the plain text with non-breaking spaces made spaces, then a blank prefix and a blank suffix cut off: no non-breaking space and no edge whitespace remains |
| NewsScraper.CleanItem | mlOps/news-nuggets/news_scraper.py:47-50 | title, description and content are each the cleaned text of the item's own field, and the other fields are kept |
| NewsScraper.CleanAll | mlOps/news-nuggets/news_scraper.py:47-50 | every item is cleaned, in order |
| NewsScraper.CleanNews | mlOps/news-nuggets/news_scraper.py:47-50 | the loop cleans exactly as CleanAll |
| NewsScraper.HrefsSpec | mlOps/news-nuggets/news_scraper.py:25-31 | every figure with a link contributes its stripped link, and only those |
| NewsScraper.CollectLinks | mlOps/news-nuggets/news_scraper.py:25-31 | the loop collects exactly those links |
| NewsScraper.Dedup | mlOps/news-nuggets/news_scraper.py:32 | the same members, each once, in order of first appearance: one order `list(set(...))` may give |
| NewsScraper.DedupListsSet | mlOps/news-nuggets/news_scraper.py:32 | first-appearance deduplication meets the set-listing contract the handler is proved for |
| NewsScraper.FetchAll | mlOps/news-nuggets/news_scraper.py:37-46 | succeeds exactly when every link is fetched and read, giving each reading in link order |
| NewsScraper.FetchAllFailure | mlOps/news-nuggets/news_scraper.py:37-46 | a failure names the first link that fails, after all before it succeed |
| NewsScraper.FetchAllStops | mlOps/news-nuggets/news_scraper.py:37-46 | a failure in a prefix is the failure of the whole run |
| NewsScraper.FetchPages | mlOps/news-nuggets/news_scraper.py:37-46 | the loop returns what FetchAll does, and on failure the items read before the first failing link |
| NewsScraper.NewsKeyParts | mlOps/news-nuggets/news_scraper.py:64-68 | the object key splits into folder, date and "news.json" |
| NewsScraper.LambdaHandler | mlOps/news-nuggets/news_scraper.py:14-58 | a listing failure or a missing div is a 500; a page failure is a 500 with its text; otherwise the pages are fetched in the order the given set listing produces and the cleaned items are stored under the dated key |
| NotebookScraper.DateAndTime | notebooks/latestNewsScrapper.py:53-67 | both empty for an empty text; a raise unless there are two "at" parts; both parts stripped |
| NotebookScraper.GetData | notebooks/latestNewsScrapper.py:18-68 | an item exactly when title, paragraphs and info can be read, holding each field's reading |
| NotebookScraper.DateAndTimeOfInfoLine | notebooks/latestNewsScrapper.py:53-67 | the site's info text gives back the date and time it shows |
| NotebookScraper.ReadsWhereLambdaReads | notebooks/latestNewsScrapper.py:18-51 | wherever the lambda reads a page, the notebook reads the same title, description, content, image and address |
| NotebookScraper.RunScript | notebooks/latestNewsScrapper.py:70-109 | a listing failure ends in a NameError; otherwise the pages are fetched in the order the given set listing produces, every page read, or the items before the first failure with its text |
| LoginLambda.HashPassword | mlOps/news-nuggets/lambda/login.py:9-10 | the hash of salt then password, for two strings only |
| LoginLambda.LambdaHandler | mlOps/news-nuggets/lambda/login.py:12-61 | 400 exactly when email or password is missing; 200 exactly when the first scanned user's hash matches, with its id and name; 401 with "Invalid credentials" for an empty scan or a hash mismatch; 500 with the scan's error text when the scan fails, and with the quoted key when the user lacks `salt`, `password`, `id` or `name` |
| LoginLambda.WrongPasswordLikeUnknownEmail | mlOps/news-nuggets/lambda/login.py:30-55 | a wrong password gets the same reply as an unknown email |
| SignupLambda.UserItem | mlOps/news-nuggets/lambda/signup.py:34-40 | exactly the five fields, holding the id, email, name, salt and hash |
| SignupLambda.Decide | mlOps/news-nuggets/lambda/signup.py:17-45 | 400 exactly when a field is missing; a record to store exactly when all are present and the password is a string, with the salted hash and a 200 reply |
| SignupLambda.UsersTable.PutItem | mlOps/news-nuggets/lambda/signup.py:34-40 | the item replaces any item with its id |
| SignupLambda.LambdaHandler | mlOps/news-nuggets/lambda/signup.py:17-45 | the record is written exactly when the decision stores one; otherwise the table is unchanged |
| SignupLambda.SameEmailTwice | mlOps/news-nuggets/lambda/signup.py:34-40 | two sign-ups with one email leave two records with that email |
| SignupLambda.SignupThenLogin | mlOps/news-nuggets/lambda/signup.py:13-15 | logging in with the signed-up email and password succeeds with the new id and name |
| SignupLambda.SignupThenWrongPassword | mlOps/news-nuggets/lambda/signup.py:13-15 | a password with a different hash is refused with 401 |

## Left out

- Case mapping is ASCII only; JavaScript and Python map the whole of Unicode.
- Whitespace is one ASCII set (space, tab, line feed, vertical tab, form feed, carriage return) for both languages: Python's `strip()` also removes \x1c-\x1f and \x85, and both languages remove Unicode spaces, each with its own set.
- `int()` in the paging endpoint: underscores and non-ASCII digits are not modelled.
- String order in the category filter compares characters (Unicode scalar values), not UTF-16 code units as `.sort()` does; the two orders differ only for characters outside the Basic Multilingual Plane.
- Randomness (the shuffle order, tokens, uuids, salts) is a parameter of the operation that uses it.
- Clocks (`Date.now`, `datetime.now`) are parameters.
- The ISO-string rendering of the mock service's publication dates is not modelled; they are milliseconds.
- The network, the database tables, the bucket and local or async storage are parameters or class fields.
- The shared article type of the news platform is not part of this model; only the fields the code reads are modelled.
- The mock auth service's initial callback, sent asynchronously on subscription, is not modelled.
- Storage failures and their catch paths, latency and sleeps are not modelled.
- Races between overlapping requests, stale closures and effect scheduling are not modelled: each operation runs to completion.
- The catch path of `fetchPersonalizedNews` is not modelled: `fetchNews` never rejects, and a response without an `items` array, which the catch would also handle, cannot arise because the API reply is modelled as a list of items.
- Secrets, API keys and URLs are left out.
- GetNews.DateStamp: assumes a four-digit year.
- HTML parsing and unescaping are the `plain` parameter; the page's tags are the `Page` datatype.
- Python set order: `list(set(links))` follows the set's hash order, so the scraper handlers take the listing as a `listSet` parameter that is only required to return each link once and nothing else; NewsScraper.Dedup is one such listing.
- The texts of most exceptions are not modelled (`None`).
- `json.dumps` of saved items and prints of the scripts are not modelled.
- NewsScraper.ParseStampOf: holds for years of four digits, since `strftime` does not pad shorter ones.
- `strptime`'s Unicode digits and whitespace are not modelled.
- The users table is a map keyed by `id`; `put_item` failures are not modelled.
- SHA-256 is the `hash` parameter; the scan order is the order the `scan` parameter returns.
- Rendering, navigation, the captcha, the queue consumer and the mock news data of the web apps are not modelled.
- An unparsable `publishedAt` (which reads as "NaN days ago" on the card) is not modelled: dates are whole milliseconds.
- Object key order: `Object.entries` lists integer-like keys first; the visit counts are modelled as a list in insertion order.
- JSON numbers are integers only; fractions and exponents are not modelled.
- Password lengths on the login and sign-up screens count characters, not UTF-16 code units.
- GetNewsApi.LambdaHandler: a scanned item holding a number comes back from boto3 as a `Decimal`, which `json.dumps` refuses, so the source answers 500; the model's numbers are plain integers and such an item is returned with 200.
- MockAuth.CreateMockSession: `email_confirmed_at` is an ISO date string in the source and a millisecond count here, and the separate `Date.now()` readings of one call are a single `now`.
- GetNews.LambdaHandler: `datetime.now()` is read once per save in the source; the model takes one date for the whole run.
- MockNewsService.MockArticle: `Date.now()` is read once per fixture article in the source; the model takes one `now` for all fifty.
