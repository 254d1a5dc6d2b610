# Resume / job-description ATS scorer — a Dafny model

This project models the scoring core of an applicant-tracking-system (ATS) service. The service reads a
resume and a job description and extracts the job description's categories: job title, skills,
location, education, experience level, job type, industry and years of experience. It looks each
category up in both texts, scores the resume category by category, sums the scores with a fixed weight
table, and writes a feedback text.

The project has these files:

- `wrappers.dfy`: `Option`.
- `text.dfy`: the Python `str` operations the code relies on (`lower`, `split`, `join`, `strip`, `str(n)`,
  `<` on strings and lists), and the set iteration order.
- `dicts.dfy`: Python's insertion-ordered `dict`, as a key sequence plus a map.
- `score_calculator.dfy`: the per-category scorers (`ScoreCalculator`). These are pure functions.
- `text_processor.dfy`: the extraction bookkeeping (`TextProcessor`). The shared `defaultdict` becomes
  the class `Categories`. The extractors are methods that update it, each proved against a function
  that says what it adds. `extract_info` is a method with nested loops. `preprocess_text`,
  `merge_categories` and `extract_specific_category` are functions or a method without state.
- `ats_calculator.dfy`: the weight table, the weighted total, the category-score loop with its `except`
  path, `calculate_ats_score`, and `provide_feedback` (`AtsCalculator`).

The code's foreign pieces are given as parameters. The regular expressions, spaCy, YAKE and the
sentence-embedding model are fields of the datatypes `Nlp` and `Embedder`, which hold uninterpreted
functions. The iteration order of a Python `set` is the parameter `order: SetOrder`. Where a lemma
needs it, it assumes only that `order` lists each member of a set exactly once (`Enumerates`).

Python's run-time type errors matter here. The code catches them in `_calculate_category_scores`; in
`provide_feedback` they propagate. So the info values are modelled as tagged values
(`Items(list)` or `Years(n)`). Every scorer and every feedback step says what happens on each kind of
value. A raised exception is `None`. In `_calculate_category_scores` it becomes a score of 0.0.

The code turns "Master's degree" into "master degree", which contains "as", so the classifier calls
it "associate" (level 2). A bachelor's (level 3) against it is then capped at 1.0. `ScoreCalculator.BachelorsAgainstMastersDegree`
proves that this input scores 1.0.

## Model

| member | source | states |
|---|---|---|
| ScoreCalculator.CappedRatio | app/services/score_calculator.py:88 | `min(num/den, 1.0)` lies in [0,1]; it is 1 exactly when num ≥ den, and below that it is the exact ratio |
| ScoreCalculator.ExperienceScore | app/services/score_calculator.py:97-104 | 1.0 when the job asks for 0 years; otherwise in [0,1], 1 exactly when the resume has at least the job's years, else resume/job |
| ScoreCalculator.TwoYearsAgainstFive | app/services/score_calculator.py:102 | 2 years against 5 scores 0.4 |
| ScoreCalculator.CategoryScore | app/services/score_calculator.py:106-113 | 1.0 for an empty job list; always in [0,1]; otherwise the common distinct items over the job list's length; 1 exactly when every job item is on the resume and the job list has no duplicates; 0 exactly when the two are disjoint |
| ScoreCalculator.NormalizeEducation | app/services/score_calculator.py:58-71 | the result is one of the five level names or the cleaned input |
| ScoreCalculator.NormalizeEducationFirstHit | app/services/score_calculator.py:59-71 | each level is returned exactly when its substring test hits and no earlier test does |
| ScoreCalculator.EduLevel | app/services/score_calculator.py:77 | levels are at most 5, and 0 exactly for a string that is not a level name |
| ScoreCalculator.MaxLevel | app/services/score_calculator.py:82-83 | the maximum level of the normalised entries: an upper bound of each, attained by one, 0 for an empty list |
| ScoreCalculator.EducationScore | app/services/score_calculator.py:75-90 | in [0,1]; 1.0 when the job level is 0 or the resume level reaches it; otherwise `min(resume/job, 1)` of the levels |
| ScoreCalculator.RemoveAbsent | app/services/score_calculator.py:59 | `replace` removes nothing from a string lacking the pattern's first character |
| ScoreCalculator.RemoveMiddle | app/services/score_calculator.py:59 | `replace` drops a single occurrence flanked by text without the pattern's first character, and keeps the rest |
| ScoreCalculator.AbsentChar | app/services/score_calculator.py:60-69 | `sub in s` is false when `s` lacks one of `sub`'s characters |
| ScoreCalculator.MasterIsAssociate | app/services/score_calculator.py:62-63 | "master" contains "as" and is classified as associate |
| ScoreCalculator.MbaIsBachelor | app/services/score_calculator.py:64-65 | "mba" contains "ba" and is classified as bachelor |
| ScoreCalculator.MsIsMaster | app/services/score_calculator.py:66-67 | "MS" is classified as master |
| ScoreCalculator.PhdIsPhd | app/services/score_calculator.py:68-69 | "PhD" is classified as phd |
| ScoreCalculator.CleanMastersDegree | app/services/score_calculator.py:59 | lowercasing and removing "'s", then "'", turns "Master's degree" into "master degree" |
| ScoreCalculator.MastersDegreeIsAssociate | app/services/score_calculator.py:59-63 | "Master's degree" is classified as associate |
| ScoreCalculator.BachelorsIsBachelor | app/services/score_calculator.py:59-65 | "bachelor's" is classified as bachelor |
| ScoreCalculator.BachelorsAgainstMastersDegree | app/services/score_calculator.py:75-90 | bachelor's on the resume against "Master's degree" in the job scores 1.0 |
| ScoreCalculator.NonStop | app/services/score_calculator.py:17-19 | no token kept is a stop word |
| ScoreCalculator.NonStopEmpty | app/services/score_calculator.py:18-22 | a title has no tokens exactly when all its words are stop words |
| ScoreCalculator.Jaccard | app/services/score_calculator.py:24-26 | the intersection's size over the union's, in [0,1]; 1 exactly when the token sets are equal; 0 exactly when they are disjoint |
| ScoreCalculator.JobTitleScore | app/services/score_calculator.py:13-32 | 0 for an empty title or one of only stop words; otherwise the mean of the Jaccard term and the model's similarity of the raw titles |
| ScoreCalculator.JobTitleExtremes | app/services/score_calculator.py:24-32 | equal token sets with similarity 1 score 1; disjoint token sets score half the similarity |
| ScoreCalculator.NormalizeSkill | app/services/score_calculator.py:38-39 | the skill's non-whitespace characters, lower-cased and in order (`DropSpaces` of `Lower`); so no whitespace, no upper-case letter, and never longer than the skill |
| ScoreCalculator.NormalizeSkillIdempotent | app/services/score_calculator.py:38-39 | normalising a normalised skill changes nothing |
| ScoreCalculator.SkillSet | app/services/score_calculator.py:38-39 | a non-empty skills list gives a non-empty normalised set |
| ScoreCalculator.ExactMatchScore | app/services/score_calculator.py:41-42 | the share of job skills the resume names, in [0,1]; 1 exactly when every job skill is among the resume skills; 0 exactly when none is |
| ScoreCalculator.SkillsScore | app/services/score_calculator.py:34-53 | 1.0 for an empty job list; otherwise the mean of the exact-match and semantic terms over the normalised sets |
| ScoreCalculator.NoResumeSkills | app/services/score_calculator.py:38-53 | a resume with no skills scores 0.0 against a non-empty job list: the exact term is 0 and the semantic term is 0 for an empty side |
| ScoreCalculator.SkillsFullOverlap | app/services/score_calculator.py:38-53 | when every job skill is named on the resume after normalisation, the exact term is 1 |
| Text.JoinSplitDropsSpaces | app/services/score_calculator.py:38-39 | `''.join(s.split())` is `s` with exactly its whitespace characters left out |
| Text.JoinSplitLength | app/services/text_processor.py:230 | `' '.join(s.split())` is never longer than `s` |
| Text.SplitJoin | app/services/text_processor.py:230 | splitting words joined by single spaces gives back the words |
| Dicts.Put | app/services/ats_calculator.py:31 | `d[k] = v`: `k` now holds `v`, other keys are unchanged, an existing key keeps its place and a new key goes last |
| Dicts.PutPut | app/services/ats_calculator.py:31 | a second write to a key replaces the first, and the key keeps its first position |
| Dicts.PutNoDup | app/services/ats_calculator.py:31 | writing never lists a key twice |
| TextProcessor.CategoryNamed | app/services/text_processor.py:252 | a key string names at most one category |
| TextProcessor.NamedName | app/services/text_processor.py:252 | each category's key string names that category |
| TextProcessor.AddTo | app/services/text_processor.py:41 | `categories[key].update(s)` on a defaultdict: the key holds its previous set (empty if new) joined with `s`; a new key goes last; nothing else changes |
| TextProcessor.AddToTwice | app/services/text_processor.py:145-147 | two updates of one key equal one update with the union |
| TextProcessor.AddNothing | app/services/text_processor.py:147 | updating an existing set with nothing changes nothing |
| TextProcessor.Categories.constructor | app/services/text_processor.py:41 | the defaultdict starts empty |
| TextProcessor.Categories.Update | app/services/text_processor.py:107 | the stored dict becomes `AddTo` of the old one |
| TextProcessor.Categories.SetCount | app/services/text_processor.py:217 | the stored dict becomes the old one with the count written under the key |
| TextProcessor.FirstTitleMatch | app/services/text_processor.py:92-96 | the first title pattern that matches, with its group, after none of the earlier ones; `None` exactly when none matches |
| TextProcessor.TitleAdded | app/services/text_processor.py:92-101 | at most one title is added: from the first matching pattern, stripped and lowercased; the first sentence is used only when no pattern matched and no title was stored |
| TextProcessor.ExtractJobTitle | app/services/text_processor.py:84-101 | the job-title entry gains exactly `TitleAdded`, and the key exists afterwards |
| TextProcessor.UnionMapMembers | app/services/text_processor.py:119-124 | an element is in the union built item by item exactly when it is in the set of one item |
| TextProcessor.MatchSkillsMembers | app/services/text_processor.py:119-124 | an item is added exactly when it comes from one of the pattern's matches |
| TextProcessor.PatternSkillsMembers | app/services/text_processor.py:117-124 | an item is added exactly when it comes from a match of one of the skill patterns |
| TextProcessor.AddMatches | app/services/text_processor.py:119-124 | the loop over one pattern's matches adds all of their items to skills |
| TextProcessor.ExtractSkills | app/services/text_processor.py:103-124 | skills gain the lowercased keywords and the items of every skill pattern's matches |
| TextProcessor.EntityTextsSnoc | app/services/text_processor.py:128-132 | one more entity adds its lowercased text to the org set or the place set according to its label |
| TextProcessor.AddEntityTo | app/services/text_processor.py:128-132 | a step on one entity keeps the dict well formed |
| TextProcessor.EntitiesInto | app/services/text_processor.py:128-132 | the loop over the entities keeps the dict well formed |
| TextProcessor.EntitiesKeepOthers | app/services/text_processor.py:128-132 | the entities touch only skills and location |
| TextProcessor.EntitiesKeepAll | app/services/text_processor.py:128-132 | every key but skills and location is unchanged |
| TextProcessor.AddEntityOrg | app/services/text_processor.py:129-130 | an ORG or PRODUCT entity adds its lowercased text to skills |
| TextProcessor.AddEntityGpe | app/services/text_processor.py:131-132 | a GPE entity adds its lowercased text to location |
| TextProcessor.AddEntityGpeKey | app/services/text_processor.py:131-132 | location becomes a key exactly when it already was one or the entity is a place |
| TextProcessor.EntitiesAddOrgs | app/services/text_processor.py:128-130 | skills gain exactly the org and product texts |
| TextProcessor.EntitiesAddGpes | app/services/text_processor.py:131-132 | location gains exactly the place texts |
| TextProcessor.EntitiesLocationKey | app/services/text_processor.py:131-132 | location is a key afterwards exactly when it was before or some entity is a place |
| TextProcessor.EntitiesKeyOrder | app/services/text_processor.py:128-132 | the only key the entities can append is location, at the end |
| TextProcessor.ExtractEntities | app/services/text_processor.py:126-132 | the dict becomes `EntitiesInto` of the old one over spaCy's entities |
| TextProcessor.TableMatchesMembers | app/services/text_processor.py:145-147 | an item is in the union exactly when it is the lowercase form of a match of one of the table's patterns |
| TextProcessor.ExtractUnionAll | app/services/text_processor.py:136-198 | the key's set grows by exactly the lowercased matches of every pattern in the table (6, 6, 6 and 12 patterns); nothing is removed |
| TextProcessor.ExtractEducation | app/services/text_processor.py:134-147 | education grows by the union of all education-pattern matches |
| TextProcessor.ExtractExperienceLevel | app/services/text_processor.py:149-162 | experience grows by the union of all experience-pattern matches |
| TextProcessor.ExtractJobType | app/services/text_processor.py:164-177 | job type grows by the union of all job-type-pattern matches |
| TextProcessor.ExtractIndustry | app/services/text_processor.py:179-198 | industry grows by the union of all industry-pattern matches |
| TextProcessor.MaxYears | app/services/text_processor.py:209-214 | the maximum of the patterns' first-match values: at least each of them, and 0 or attained by one |
| TextProcessor.PutYears | app/services/text_processor.py:216-217 | the count is written only when positive, so a stored count is at least 1; other keys are unchanged |
| TextProcessor.ExtractYearsExperience | app/services/text_processor.py:200-217 | the dict becomes `PutYears` of the maximum over the years patterns |
| TextProcessor.NamedKeysOnly | app/services/text_processor.py:43-45 | the first three extractors create none of the later keys |
| TextProcessor.EntitiesAfterTitleAndSkills | app/services/text_processor.py:45 | after title and skills, the entities give keys title, skills and possibly location, with their sets |
| TextProcessor.ExtractNamed | app/services/text_processor.py:43-45 | title, skills, entities: the keys and the three sets they hold |
| TextProcessor.ExtractTables | app/services/text_processor.py:46-49 | append education, experience, job type and industry in that order, each with its table's union; nothing else changes |
| TextProcessor.AssembledKeys | app/services/text_processor.py:41-52 | the keys end up in the order `CategoryKeys` gives |
| TextProcessor.AssembledEntry | app/services/text_processor.py:41-52 | each key ends up with the entry `CategoryEntry` gives |
| TextProcessor.ExtractCategories | app/services/text_processor.py:29-52 | the keys in creation order, and each category's entry, as functions of what the extractors find |
| TextProcessor.ExtractSpecificCategory | app/services/text_processor.py:240-252 | the entry of the named category, or the empty set for an unknown name or a category not created |
| TextProcessor.PickedList | app/services/text_processor.py:73-75 | at most one entry per schema item |
| TextProcessor.PickedListMembers | app/services/text_processor.py:73-75 | an output item is `item.lower()` of a schema item in the keyword set or found as a whole word, and every such item appears |
| TextProcessor.PickedListSize | app/services/text_processor.py:73-75 | over distinct schema items, one output entry per selected item |
| TextProcessor.InfoValue | app/services/text_processor.py:71-79 | a count exactly for the years key holding a count; lists elsewhere |
| TextProcessor.InfoItems | app/services/text_processor.py:71-75 | for a set-valued category: one entry per selected item, each the lowercase form of a selected item |
| TextProcessor.PickItems | app/services/text_processor.py:73-75 | the inner loop builds exactly `PickedList` |
| TextProcessor.ExtractInfo | app/services/text_processor.py:54-82 | the keys are exactly the schema's keys, in its order, and each value is `InfoValue` of the schema entry (years: first match or 0) |
| TextProcessor.KeepAllowed | app/services/text_processor.py:236 | only allowed characters survive, the result is no longer, and text of allowed characters is unchanged |
| TextProcessor.PreprocessAlphabet | app/services/text_processor.py:219-238 | the output holds only lowercase letters, digits, the plain space and `. + # / -`, and is no longer than the input |
| TextProcessor.PreprocessClean | app/services/text_processor.py:219-238 | single-spaced lowercase text of allowed characters comes back unchanged |
| TextProcessor.MergeCategories | app/services/text_processor.py:254-269 | the keys are the union of both key sets, and each value is the union of the two sets, a missing key counting as empty |
| TextProcessor.MergeCommutes | app/services/text_processor.py:266-269 | merging is commutative |
| TextProcessor.MergeIdentity | app/services/text_processor.py:266-269 | merging with itself or with an empty dict gives the dict's contents |
| TextProcessor.MergeAt | app/services/text_processor.py:268 | the merged value of a key is the union of its two lookups |
| TextProcessor.MergedGet | app/services/text_processor.py:266-269 | a dict holding a merge answers each lookup with the union of the two lookups |
| TextProcessor.MergeAssociatesAt | app/services/text_processor.py:266-269 | at each key, the two ways of merging three dicts agree |
| TextProcessor.MergeAssociates | app/services/text_processor.py:266-269 | merging is associative, whatever the key order of the intermediate dicts |
| AtsCalculator.WeightOrderLists | app/services/ats_calculator.py:12-22 | the weight table lists every category and the similarity, each once |
| AtsCalculator.WeightsSumToOne | app/services/ats_calculator.py:12-22 | the nine weights sum to exactly 1 |
| AtsCalculator.WeightedSumBounds | app/services/ats_calculator.py:73-74 | with every score in [0,1], the sum lies between 0 and the sum of the weights |
| AtsCalculator.TotalBounds | app/services/ats_calculator.py:72-76 | with every score in [0,1], the total lies in [0,1] |
| AtsCalculator.WeightedSumPut | app/services/ats_calculator.py:73-74 | each listed criterion contributes its weight times its score: changing one score moves the sum by weight times the change |
| AtsCalculator.TotalScorePut | app/services/ats_calculator.py:72-76 | changing one score moves the total by exactly its weight times the change |
| AtsCalculator.WeightedSumEmpty | app/services/ats_calculator.py:73-74 | missing scores count as 0 |
| AtsCalculator.OnlySimilarity | app/services/ats_calculator.py:73-74 | weights are not renormalised: only a similarity `s` totals `s/10` |
| AtsCalculator.DispatchSucceeds | app/services/ats_calculator.py:42-65 | values of the kind each scorer expects never make it raise |
| AtsCalculator.DispatchBounds | app/services/ats_calculator.py:42-65 | with the model's similarities in [0,1], every category score is in [0,1] |
| AtsCalculator.CalculateCategoryScores | app/services/ats_calculator.py:38-70 | one score per job-info key, in its order, each the category's scorer or 0.0 when that raises or the resume lacks the key; no similarity entry |
| AtsCalculator.CategoryEntryKinds | app/services/text_processor.py:41 | the schema holds a count only under the years key |
| AtsCalculator.InfoShaped | app/services/text_processor.py:71-79 | both info dicts hold a count exactly under the years key, and lists elsewhere |
| AtsCalculator.CategoryKeysNoDup | app/services/text_processor.py:41-52 | the schema's keys are pairwise different |
| AtsCalculator.ScoresBounds | app/services/ats_calculator.py:28-36 | with the model's similarities in [0,1], the category scores plus the similarity total at most 1 |
| AtsCalculator.CalculateAtsScore | app/services/ats_calculator.py:24-36 | both infos have the schema's keys; the scores are the job keys plus `text_similarity`, with the cosine similarity of the two texts; the result is 100 × the total, in [0,100] when the similarities are in [0,1]; and feedback on these results never raises |
| AtsCalculator.Verdict | app/services/ats_calculator.py:89-94 | below 70 needs improvement, 70 to below 85 good match, from 85 excellent |
| AtsCalculator.TitlePart | app/services/ats_calculator.py:96-101 | at most one line, a title-mismatch line |
| AtsCalculator.MissingLines | app/services/ats_calculator.py:103-107 | at most one line per category, each a missing-items line |
| AtsCalculator.MissingLinesFail | app/services/ats_calculator.py:103-107 | once one category raises, the whole loop raises |
| AtsCalculator.YearsPart | app/services/ats_calculator.py:109-111 | at most one line, a years line |
| AtsCalculator.PartsInOrder | app/services/ats_calculator.py:87-111 | verdict, title, missing-items and years lines laid end to end keep their places |
| AtsCalculator.FeedbackOrder | app/services/ats_calculator.py:87-111 | the feedback starts with the score's verdict and has no other; a title line can only be second and a years line only last |
| AtsCalculator.MissingFor | app/services/ats_calculator.py:103-107 | one line per category other than years and title whose job items are not all on the resume, naming the missing items |
| AtsCalculator.MissingLinesShaped | app/services/ats_calculator.py:103-107 | on info dicts of the pipeline's shape, the loop never raises and gives exactly `MissingFor` |
| AtsCalculator.FeedbackShaped | app/services/ats_calculator.py:96-111 | on the pipeline's results, feedback never raises: a title line exactly when the title score is below 0.5, the `MissingFor` lines, and a years line exactly when the resume has fewer years |
| AtsCalculator.AddMissingLines | app/services/ats_calculator.py:103-107 | the loop appends exactly the missing-items lines, or raises when `MissingLines` does |
| AtsCalculator.ProvideFeedback | app/services/ats_calculator.py:85-114 | the rendered feedback lines joined with newlines, or `None` exactly when a step raises |

## Left out

- Regex engine, spaCy, YAKE: uninterpreted fields of `Nlp`. Each pattern's result is an input; the concrete patterns are not modelled.
- Sentence embeddings and `cosine_similarity`: `Embedder.cosine` and `Embedder.skillSemantic` are uninterpreted and not clamped. The [0,1] bounds on title scores, skills scores and the total hold only under `UnitEmbedder`.
- `similarty_score` is `Embedder.cosine` applied to the two full texts.
- Floating point: scores are exact `real`s, and IEEE rounding is not modelled.
- Logging calls.
- The FastAPI routes, the pydantic schemas and the HTTP test script are not part of this model.
- Lowercasing and whitespace are ASCII-only: `Lower` maps `A`–`Z`, and `IsSpace` is the ASCII whitespace set. Python's Unicode `lower()` can turn non-ASCII characters into ASCII letters, such as the Kelvin sign into `k`; `PreprocessAlphabet` is stated for this ASCII-only lowering.
- Python's set iteration order is the parameter `order`, an iteration order the model leaves open. Lemmas that need it assume only that it lists each member once.
- The category key strings are the datatype `Category`. `Name` and `CategoryNamed` translate between the datatype and the strings.
- TextProcessor.MergeCategories: the result is given as a map without key order, because the order of the merged dict is the iteration order of a set of keys.
- TextProcessor.Categories.Update: requires that the key does not hold a count. Python would raise on `int.update`, which never happens there, as the count is written last.
- TextProcessor.ExtractInfo: builds each category's list locally and then stores it, rather than appending into the dict in place. The result is the same.
- AtsCalculator.CalculateCategoryScores: states the exact key sequence only when the job keys have no duplicates. Python dict keys never have duplicates, and `AtsCalculator.CategoryKeysNoDup` proves this for the keys `extract_categories` makes.
- AtsCalculator.ProvideFeedback: `str()` of a list of strings is rendered as `['a', 'b']`; Python's repr quoting and escaping of the items (double quotes around an item holding `'`, escaped backslashes and control characters) is not reproduced. This matters only for a list-valued years entry, which the pipeline never produces.
- AtsCalculator.ProvideFeedback: the sentences are built as `Line` values and rendered at the end. The joined text is the same as appending the strings in order.
- Exceptions are `None` results. The exception type and the log message are not modelled.
