/**
 * The ATS aggregator: one score per category of the job's info dict plus the whole-text similarity,
 * their weighted sum, and the feedback text built from the scores and the two info dicts.
 */
module AtsCalculator {
  import opened Wrappers
  import opened Text
  import opened Dicts
  import opened ScoreCalculator
  import opened TextProcessor

  /** A key of the scores dict: a category of the info dicts, or `text_similarity`. */
  datatype Criterion = Of(category: Category) | TextSimilarity

  // ---------------------------------------------------------------- the weight table

  /** The weight of each key of the weight table. */
  function Weight(c: Criterion): real {
    match c
    case Of(JobTitle) => 0.15
    case Of(Skills) => 0.30
    case Of(Education) => 0.10
    case Of(Experience) => 0.10
    case Of(YearsOfExperience) => 0.10
    case Of(Industry) => 0.05
    case Of(JobType) => 0.05
    case Of(Location) => 0.05
    case TextSimilarity => 0.10
  }

  /** The keys of the weight table in the order the table lists them (the order the sum runs). */
  const WeightOrder: seq<Criterion> := [Of(JobTitle), Of(Skills), Of(Education), Of(Experience), Of(YearsOfExperience),
                                         Of(Industry), Of(JobType), Of(Location), TextSimilarity]

  /** The table lists every criterion, each once. */
  lemma WeightOrderLists()
    ensures NoDup(WeightOrder)
    ensures forall c :: c in WeightOrder
  {
    forall c ensures c in WeightOrder {
      match c
      case Of(JobTitle) => assert WeightOrder[0] == c;
      case Of(Skills) => assert WeightOrder[1] == c;
      case Of(Education) => assert WeightOrder[2] == c;
      case Of(Experience) => assert WeightOrder[3] == c;
      case Of(YearsOfExperience) => assert WeightOrder[4] == c;
      case Of(Industry) => assert WeightOrder[5] == c;
      case Of(JobType) => assert WeightOrder[6] == c;
      case Of(Location) => assert WeightOrder[7] == c;
      case TextSimilarity => assert WeightOrder[8] == c;
    }
  }

  /** The sum of the weights of `cs`. */
  function WeightSum(cs: seq<Criterion>): real {
    if cs == [] then 0.0 else WeightSum(cs[..|cs| - 1]) + Weight(cs[|cs| - 1])
  }

  lemma WeightSumSnoc(cs: seq<Criterion>, c: Criterion)
    ensures WeightSum(cs + [c]) == WeightSum(cs) + Weight(c)
  {
    assert (cs + [c])[..|cs|] == cs;
  }

  /** The nine weights sum to exactly 1. */
  lemma WeightsSumToOne()
    ensures WeightSum(WeightOrder) == 1.0
  {
    var w: seq<Criterion> := [];
    WeightSumSnoc(w, Of(JobTitle)); w := w + [Of(JobTitle)];
    WeightSumSnoc(w, Of(Skills)); w := w + [Of(Skills)];
    WeightSumSnoc(w, Of(Education)); w := w + [Of(Education)];
    WeightSumSnoc(w, Of(Experience)); w := w + [Of(Experience)];
    WeightSumSnoc(w, Of(YearsOfExperience)); w := w + [Of(YearsOfExperience)];
    WeightSumSnoc(w, Of(Industry)); w := w + [Of(Industry)];
    WeightSumSnoc(w, Of(JobType)); w := w + [Of(JobType)];
    WeightSumSnoc(w, Of(Location)); w := w + [Of(Location)];
    WeightSumSnoc(w, TextSimilarity); w := w + [TextSimilarity];
    assert w == WeightOrder;
  }

  // ---------------------------------------------------------------- _calculate_total_score

  /** `sum(scores.get(c, 0) * w for c, w in ...)` over the criteria `cs`, left to right. */
  function WeightedSum(scores: Dict<Criterion, real>, cs: seq<Criterion>): real
    requires Valid(scores)
  {
    if cs == [] then 0.0
    else WeightedSum(scores, cs[..|cs| - 1]) + GetOr(scores, cs[|cs| - 1], 0.0) * Weight(cs[|cs| - 1])
  }

  /** `_calculate_total_score` */
  function TotalScore(scores: Dict<Criterion, real>): real
    requires Valid(scores)
  {
    WeightedSum(scores, WeightOrder)
  }

  /** With every score in [0, 1], the weighted sum lies between 0 and the sum of the weights. */
  lemma {:induction false} WeightedSumBounds(scores: Dict<Criterion, real>, cs: seq<Criterion>)
    requires Valid(scores)
    requires forall c :: 0.0 <= GetOr(scores, c, 0.0) <= 1.0
    ensures 0.0 <= WeightedSum(scores, cs) <= WeightSum(cs)
  {
    if cs != [] {
      var c := cs[|cs| - 1];
      WeightedSumBounds(scores, cs[..|cs| - 1]);
      assert 0.0 <= GetOr(scores, c, 0.0) * Weight(c) <= Weight(c);
    }
  }

  /** With every score in [0, 1], the total lies in [0, 1]. */
  lemma TotalBounds(scores: Dict<Criterion, real>)
    requires Valid(scores)
    requires forall c :: 0.0 <= GetOr(scores, c, 0.0) <= 1.0
    ensures 0.0 <= TotalScore(scores) <= 1.0
  {
    WeightedSumBounds(scores, WeightOrder);
    WeightsSumToOne();
  }

  /** Changing one score by `d` changes the weighted sum by its weight times `d`, once for each time it is listed. */
  lemma {:induction false} WeightedSumPut(scores: Dict<Criterion, real>, cs: seq<Criterion>, c: Criterion, v: real)
    requires Valid(scores) && NoDup(cs)
    ensures WeightedSum(Put(scores, c, v), cs) ==
      WeightedSum(scores, cs) + (if c in cs then Weight(c) * (v - GetOr(scores, c, 0.0)) else 0.0)
  {
    if cs != [] {
      var init := cs[..|cs| - 1];
      var last := cs[|cs| - 1];
      NoDupInit(cs);
      WeightedSumPut(scores, init, c, v);
      PutGetOr(scores, c, v, last);
    }
  }

  lemma NoDupInit(cs: seq<Criterion>)
    requires cs != [] && NoDup(cs)
    ensures NoDup(cs[..|cs| - 1]) && cs[|cs| - 1] !in cs[..|cs| - 1]
    ensures forall c :: c in cs <==> c in cs[..|cs| - 1] || c == cs[|cs| - 1]
  {
    assert cs == cs[..|cs| - 1] + [cs[|cs| - 1]];
  }

  lemma PutGetOr(scores: Dict<Criterion, real>, c: Criterion, v: real, k: Criterion)
    requires Valid(scores)
    ensures GetOr(Put(scores, c, v), k, 0.0) == if k == c then v else GetOr(scores, k, 0.0)
  {
  }

  /** Each criterion adds its weight times its score: writing score `v` for `c` moves the total by `Weight(c)` times the change. */
  lemma TotalScorePut(scores: Dict<Criterion, real>, c: Criterion, v: real)
    requires Valid(scores)
    ensures TotalScore(Put(scores, c, v)) == TotalScore(scores) + Weight(c) * (v - GetOr(scores, c, 0.0))
  {
    WeightOrderLists();
    WeightedSumPut(scores, WeightOrder, c, v);
  }

  /** Missing criteria count as 0. */
  lemma {:induction false} WeightedSumEmpty(cs: seq<Criterion>)
    ensures WeightedSum(Empty(), cs) == 0.0
  {
    if cs != [] {
      WeightedSumEmpty(cs[..|cs| - 1]);
    }
  }

  /** The weights are not renormalised: a dict holding only the similarity `s` totals a tenth of `s`. */
  lemma OnlySimilarity(s: real)
    ensures TotalScore(Put(Empty(), TextSimilarity, s)) == s / 10.0
  {
    WeightedSumEmpty(WeightOrder);
    TotalScorePut(Empty(), TextSimilarity, s);
  }

  // ---------------------------------------------------------------- _calculate_category_scores

  /** `not v` for an info value: the empty list or the count 0. */
  predicate Falsy(v: Value) { v == Items([]) || v == Years(0) }

  /**
   * What the scorer that `_calculate_category_scores` calls for category `c` returns on the resume value
   * `rv` and the job value `jv`, or `None` when it raises: every scorer but the years one iterates its
   * arguments as lists, the years one divides them as numbers; the skills, years and generic scorers
   * return 1.0 for a falsy job value before touching anything else.
   */
  function Dispatch(c: Category, rv: Value, jv: Value, emb: Embedder): Option<real> {
    match c
    case Education =>
      if rv.Items? && jv.Items? then Some(EducationScore(rv.list, jv.list)) else None
    case YearsOfExperience =>
      if jv == Years(0) then Some(1.0)
      else if rv.Years? && jv.Years? then Some(ExperienceScore(rv.years, jv.years))
      else None
    case JobTitle =>
      if rv.Items? && jv.Items? then Some(JobTitleScore(Join(rv.list, " "), Join(jv.list, " "), emb)) else None
    case Skills =>
      if Falsy(jv) then Some(1.0)
      else if rv.Items? && jv.Items? then Some(SkillsScore(rv.list, jv.list, emb))
      else None
    case _ =>
      if Falsy(jv) then Some(1.0)
      else if rv.Items? && jv.Items? then Some(CategoryScore(rv.list, jv.list))
      else None
  }

  /** The score of category `c`: 0.0 when `resume_info[c]` is missing or the scorer raises. */
  function CategoryScoreOf(c: Category, resumeInfo: Dict<Category, Value>, jobInfo: Dict<Category, Value>, emb: Embedder): real
    requires Valid(resumeInfo) && Valid(jobInfo) && c in jobInfo.keys
  {
    match Get(resumeInfo, c)
    case None => 0.0
    case Some(rv) => Dispatch(c, rv, jobInfo.values[c], emb).GetOr(0.0)
  }

  /** Values of the kind the category's scorer expects never make it raise. */
  lemma DispatchSucceeds(c: Category, rv: Value, jv: Value, emb: Embedder)
    requires if c == YearsOfExperience then rv.Years? && jv.Years? else rv.Items? && jv.Items?
    ensures Dispatch(c, rv, jv, emb).Some?
  {
  }

  /** The embedding model's similarities lie in [0, 1]. */
  ghost predicate UnitEmbedder(emb: Embedder) {
    && (forall a, b :: 0.0 <= emb.cosine(a, b) <= 1.0)
    && (forall rs, js :: 0.0 <= emb.skillSemantic(rs, js) <= 1.0)
  }

  /** When the model's similarities lie in [0, 1], so does every category score. */
  lemma DispatchBounds(c: Category, rv: Value, jv: Value, emb: Embedder)
    requires UnitEmbedder(emb)
    ensures Dispatch(c, rv, jv, emb).Some? ==> 0.0 <= Dispatch(c, rv, jv, emb).value <= 1.0
  {
    if c == JobTitle && rv.Items? && jv.Items? {
      var rt := Join(rv.list, " ");
      var jt := Join(jv.list, " ");
      if rt != [] && jt != [] && TitleTokens(rt) != [] && TitleTokens(jt) != [] {
        assert 0.0 <= emb.cosine(rt, jt) <= 1.0;
      }
    }
    if c == Skills && !Falsy(jv) && rv.Items? && jv.Items? {
      var rs := SkillSet(rv.list);
      var js := SkillSet(jv.list);
      assert 0.0 <= emb.skillSemantic(rs, js) <= 1.0;
    }
  }

  /** `[Of(k) for k in ks]` */
  function Lift(ks: seq<Category>): (r: seq<Criterion>)
    ensures |r| == |ks|
    ensures forall i :: 0 <= i < |ks| ==> r[i] == Of(ks[i])
  {
    seq(|ks|, i requires 0 <= i < |ks| => Of(ks[i]))
  }

  /** One more key of the job's info extends the prefix by that key. */
  lemma PrefixSnoc(keys: seq<Category>, i: nat)
    requires i < |keys|
    ensures forall k :: k in keys[..i + 1] <==> k in keys[..i] || k == keys[i]
    ensures Lift(keys[..i + 1]) == Lift(keys[..i]) + [Of(keys[i])]
    ensures NoDup(keys) ==> keys[i] !in keys[..i]
  {
    assert keys[..i + 1] == keys[..i] + [keys[i]];
  }

  /**
   * `_calculate_category_scores`: a score for every key of the job's info, in its order, each the
   * category's scorer on the two values, or 0.0 when that raises; no similarity entry yet.
   */
  method CalculateCategoryScores(resumeInfo: Dict<Category, Value>, jobInfo: Dict<Category, Value>, emb: Embedder)
    returns (scores: Dict<Criterion, real>)
    requires Valid(resumeInfo) && Valid(jobInfo)
    ensures Valid(scores)
    ensures NoDup(jobInfo.keys) ==> scores.keys == Lift(jobInfo.keys)
    ensures TextSimilarity !in scores.keys
    ensures forall c :: Of(c) in scores.keys <==> c in jobInfo.keys
    ensures forall c :: c in jobInfo.keys ==> Get(scores, Of(c)) == Some(CategoryScoreOf(c, resumeInfo, jobInfo, emb))
  {
    var keys := jobInfo.keys;
    scores := Empty();
    for i := 0 to |keys|
      invariant Valid(scores)
      invariant NoDup(keys) ==> scores.keys == Lift(keys[..i])
      invariant TextSimilarity !in scores.keys
      invariant forall c :: Of(c) in scores.keys <==> c in keys[..i]
      invariant forall c :: c in keys[..i] ==> Get(scores, Of(c)) == Some(CategoryScoreOf(c, resumeInfo, jobInfo, emb))
    {
      var c := keys[i];
      PrefixSnoc(keys, i);
      var score := 0.0;
      var rv := Get(resumeInfo, c);
      if rv.Some? {
        var d := Dispatch(c, rv.value, jobInfo.values[c], emb);
        score := if d.Some? then d.value else 0.0;
      }
      scores := Put(scores, Of(c), score);
    }
    assert keys[..|keys|] == keys;
  }

  // ---------------------------------------------------------------- calculate_ats_score

  /** An info dict whose years key alone holds a count, as `extract_info` makes from `extract_categories`. */
  predicate Shaped(info: Dict<Category, Value>)
    requires Valid(info)
  {
    forall k :: k in info.keys ==> (info.values[k].Years? <==> k == YearsOfExperience)
  }

  /** `extract_categories` stores a count under the years key and sets everywhere else. */
  lemma CategoryEntryKinds(f: Found, k: Category)
    ensures CategoryEntry(f, k).Some? ==> (CategoryEntry(f, k).value.Count? <==> k == YearsOfExperience)
  {
  }

  /** `extract_info` on the dict of `extract_categories` gives a shaped info dict. */
  lemma InfoShaped(nlp: Nlp, order: SetOrder, text: Str, f: Found, categories: Dict<Category, Entry>, info: Dict<Category, Value>)
    requires Valid(categories) && Valid(info)
    requires forall k :: Get(categories, k) == CategoryEntry(f, k)
    requires info.keys == categories.keys
    requires forall k :: k in categories.keys ==> Get(info, k) == Some(InfoValue(nlp, order, text, k, categories.values[k]))
    ensures Shaped(info)
  {
    forall k | k in info.keys
      ensures info.values[k].Years? <==> k == YearsOfExperience
    {
      CategoryEntryKinds(f, k);
      assert Get(categories, k) == Some(categories.values[k]);
    }
  }

  /** The keys `extract_categories` creates are pairwise different. */
  lemma CategoryKeysNoDup(f: Found)
    ensures NoDup(CategoryKeys(f))
  {
    var ks := CategoryKeys(f);
    forall i, j | 0 <= i < j < |ks|
      ensures ks[i] != ks[j]
    {
      if GpeTexts(f.entities) != {} {
        assert ks[..7] == [JobTitle, Skills, Location, Education, Experience, JobType, Industry];
      } else {
        assert ks[..6] == [JobTitle, Skills, Education, Experience, JobType, Industry];
      }
    }
  }

  /**
   * `calculate_ats_score`: the categories of the job description, the info of both texts against
   * them, a score per category, the text similarity (overwriting nothing, as no category has that
   * name), and 100 times the weighted total.
   */
  method CalculateAtsScore(nlp: Nlp, order: SetOrder, emb: Embedder, resumeText: Str, jobDescription: Str)
    returns (total: real, scores: Dict<Criterion, real>, resumeInfo: Dict<Category, Value>, jobInfo: Dict<Category, Value>)
    ensures Valid(resumeInfo) && Valid(jobInfo) && Valid(scores)
    ensures resumeInfo.keys == jobInfo.keys == CategoryKeys(FoundIn(nlp, jobDescription))
    ensures Shaped(resumeInfo) && Shaped(jobInfo)
    ensures scores.keys == Lift(jobInfo.keys) + [TextSimilarity]
    ensures Get(scores, TextSimilarity) == Some(emb.cosine(resumeText, jobDescription))
    ensures forall c :: c in jobInfo.keys ==> Get(scores, Of(c)) == Some(CategoryScoreOf(c, resumeInfo, jobInfo, emb))
    ensures total == TotalScore(scores) * 100.0
    ensures UnitEmbedder(emb) ==> 0.0 <= total <= 100.0
    ensures FeedbackLines(order, total, scores, resumeInfo, jobInfo).Some?
  {
    ghost var f := FoundIn(nlp, jobDescription);
    var categories := ExtractCategories(nlp, jobDescription);
    resumeInfo := ExtractInfo(nlp, order, resumeText, categories);
    jobInfo := ExtractInfo(nlp, order, jobDescription, categories);
    InfoShaped(nlp, order, resumeText, f, categories, resumeInfo);
    InfoShaped(nlp, order, jobDescription, f, categories, jobInfo);
    var similarity := emb.cosine(resumeText, jobDescription);
    CategoryKeysNoDup(f);
    assert UnitEmbedder(emb) ==> 0.0 <= similarity <= 1.0;
    scores := CalculateCategoryScores(resumeInfo, jobInfo, emb);
    ScoresBounds(scores, similarity, resumeInfo, jobInfo, emb);
    scores := Put(scores, TextSimilarity, similarity);
    total := TotalScore(scores) * 100.0;
    FeedbackShaped(order, total, scores, resumeInfo, jobInfo);
  }

  /** With the model's similarities in [0, 1], the category scores plus the similarity total at most 1. */
  lemma ScoresBounds(scores: Dict<Criterion, real>, similarity: real, resumeInfo: Dict<Category, Value>,
                     jobInfo: Dict<Category, Value>, emb: Embedder)
    requires Valid(scores) && Valid(resumeInfo) && Valid(jobInfo)
    requires forall c :: Of(c) in scores.keys ==> c in jobInfo.keys
    requires forall c :: c in jobInfo.keys ==> Get(scores, Of(c)) == Some(CategoryScoreOf(c, resumeInfo, jobInfo, emb))
    ensures UnitEmbedder(emb) && 0.0 <= similarity <= 1.0 ==>
      0.0 <= TotalScore(Put(scores, TextSimilarity, similarity)) <= 1.0
  {
    if UnitEmbedder(emb) && 0.0 <= similarity <= 1.0 {
      var all := Put(scores, TextSimilarity, similarity);
      forall c
        ensures 0.0 <= GetOr(all, c, 0.0) <= 1.0
      {
        if c.Of? && c.category in jobInfo.keys {
          var k := c.category;
          var rv := Get(resumeInfo, k);
          if rv.Some? {
            DispatchBounds(k, rv.value, jobInfo.values[k], emb);
          }
        }
      }
      TotalBounds(all);
    }
  }

  // ---------------------------------------------------------------- provide_feedback

  /** A feedback sentence, before it is rendered as text. */
  datatype Line =
    | NeedsImprovement
    | GoodMatch
    | ExcellentMatch
    | TitleMismatch(resumeTitle: Str, jobTitle: Str)
    | MissingItemsLine(category: Category, items: seq<Str>)
    | YearsGap(jobYears: Str, resumeYears: Str)

  predicate IsVerdict(l: Line) {
    l.NeedsImprovement? || l.GoodMatch? || l.ExcellentMatch?
  }

  /** The text of each sentence. */
  function Render(l: Line): Str {
    match l
    case NeedsImprovement => "Your overall match with the job requirements needs improvement."
    case GoodMatch => "You have a good match with the job requirements, but there's room for improvement."
    case ExcellentMatch => "Excellent match with the job requirements!"
    case TitleMismatch(resumeTitle, jobTitle) =>
      "Your resume title '" + resumeTitle + "' doesn't closely match the job title '" + jobTitle
        + "'. Consider aligning your resume title more closely with the job title."
    case MissingItemsLine(c, items) => "Consider adding or highlighting these " + Name(c) + ": " + Join(items, ", ") + "."
    case YearsGap(jobYears, resumeYears) =>
      "The job requires " + jobYears + " years of experience, but your resume shows " + resumeYears + " years."
  }

  /** `"\n".join(feedback)` over the rendered sentences. */
  function FeedbackText(ls: seq<Line>): Str {
    Join(seq(|ls|, i requires 0 <= i < |ls| => Render(ls[i])), "\n")
  }

  /** The verdict line: below 70, below 85, or at least 85. */
  function Verdict(score: real): (l: Line)
    ensures IsVerdict(l)
    ensures l.NeedsImprovement? <==> score < 70.0
    ensures l.GoodMatch? <==> 70.0 <= score < 85.0
    ensures l.ExcellentMatch? <==> 85.0 <= score
  {
    if score < 70.0 then NeedsImprovement else if score < 85.0 then GoodMatch else ExcellentMatch
  }

  /** `str(v)`: the count in decimal, a list as `['a', 'b']`. */
  function ValueText(v: Value): Str {
    match v
    case Years(n) => NatToString(n)
    case Items(l) => "[" + Join(seq(|l|, i requires 0 <= i < |l| => "'" + l[i] + "'"), ", ") + "]"
  }

  /** The title part of the feedback: `None` when it raises (a count to join, or no job-title score). */
  function TitlePart(scores: Dict<Criterion, real>, resumeInfo: Dict<Category, Value>, jobInfo: Dict<Category, Value>): (r: Option<seq<Line>>)
    requires Valid(scores) && Valid(resumeInfo) && Valid(jobInfo)
    ensures r.Some? ==> |r.value| <= 1 && forall i :: 0 <= i < |r.value| ==> r.value[i].TitleMismatch?
  {
    if JobTitle !in resumeInfo.keys || JobTitle !in jobInfo.keys then Some([])
    else
      var rv := resumeInfo.values[JobTitle];
      var jv := jobInfo.values[JobTitle];
      if !rv.Items? || !jv.Items? || Of(JobTitle) !in scores.keys then None
      else if scores.values[Of(JobTitle)] < 0.5 then Some([TitleMismatch(Join(rv.list, " "), Join(jv.list, " "))])
      else Some([])
  }

  /** `set(job_info[c]) - set(resume_info[c])` */
  function MissingItems(resumeInfo: Dict<Category, Value>, jobInfo: Dict<Category, Value>, c: Category): set<Str>
    requires Valid(resumeInfo) && Valid(jobInfo) && c in resumeInfo.keys && c in jobInfo.keys
    requires resumeInfo.values[c].Items? && jobInfo.values[c].Items?
  {
    ToSet(jobInfo.values[c].list) - ToSet(resumeInfo.values[c].list)
  }

  /** Category `c` takes part in the missing-items check, and some of its job items are not on the resume. */
  predicate Lacking(resumeInfo: Dict<Category, Value>, jobInfo: Dict<Category, Value>, c: Category)
    requires Valid(resumeInfo) && Valid(jobInfo)
  {
    && c != YearsOfExperience && c != JobTitle
    && c in resumeInfo.keys && c in jobInfo.keys
    && resumeInfo.values[c].Items? && jobInfo.values[c].Items?
    && MissingItems(resumeInfo, jobInfo, c) != {}
  }

  /** The missing-items line of one category, if any; `None` when it raises (a count, or no resume entry). */
  function MissingPart(order: SetOrder, resumeInfo: Dict<Category, Value>, jobInfo: Dict<Category, Value>, c: Category): Option<seq<Line>>
    requires Valid(resumeInfo) && Valid(jobInfo) && c in jobInfo.keys
  {
    if c == YearsOfExperience || c == JobTitle then Some([])
    else if !jobInfo.values[c].Items? || c !in resumeInfo.keys || !resumeInfo.values[c].Items? then None
    else
      var missing := MissingItems(resumeInfo, jobInfo, c);
      if missing != {} then Some([MissingItemsLine(c, order(missing))]) else Some([])
  }

  /** The missing-items lines of the categories `ks`, in order; `None` once one of them raises. */
  function MissingLines(order: SetOrder, resumeInfo: Dict<Category, Value>, jobInfo: Dict<Category, Value>, ks: seq<Category>): (r: Option<seq<Line>>)
    requires Valid(resumeInfo) && Valid(jobInfo) && forall k :: k in ks ==> k in jobInfo.keys
    ensures r.Some? ==> |r.value| <= |ks|
    ensures r.Some? ==> forall i :: 0 <= i < |r.value| ==> r.value[i].MissingItemsLine?
  {
    if ks == [] then Some([])
    else
      var init := ks[..|ks| - 1];
      assert forall k :: k in init ==> k in ks;
      match MissingLines(order, resumeInfo, jobInfo, init)
      case None => None
      case Some(ls) =>
        match MissingPart(order, resumeInfo, jobInfo, ks[|ks| - 1])
        case None => None
        case Some(l) => Some(ls + l)
  }

  /** Once one category raises, so does every longer list of categories. */
  lemma {:induction false} MissingLinesFail(order: SetOrder, resumeInfo: Dict<Category, Value>, jobInfo: Dict<Category, Value>, ks: seq<Category>, i: nat)
    requires Valid(resumeInfo) && Valid(jobInfo) && forall k :: k in ks ==> k in jobInfo.keys
    requires i <= |ks|
    requires forall k :: k in ks[..i] ==> k in jobInfo.keys
    requires MissingLines(order, resumeInfo, jobInfo, ks[..i]).None?
    ensures MissingLines(order, resumeInfo, jobInfo, ks).None?
    decreases |ks| - i
  {
    if i < |ks| {
      assert ks[..i + 1][..i] == ks[..i];
      assert forall k :: k in ks[..i + 1] ==> k in ks;
      MissingLinesFail(order, resumeInfo, jobInfo, ks, i + 1);
    } else {
      assert ks[..i] == ks;
    }
  }

  /** `resume_info[years] < job_info[years]`: numbers, or lists compared lexicographically; `None` for a mix. */
  function YearsLess(rv: Value, jv: Value): Option<bool> {
    if rv.Years? && jv.Years? then Some(rv.years < jv.years)
    else if rv.Items? && jv.Items? then Some(StrListLess(rv.list, jv.list))
    else None
  }

  /** The years part of the feedback; `None` when the comparison raises. */
  function YearsPart(resumeInfo: Dict<Category, Value>, jobInfo: Dict<Category, Value>): (r: Option<seq<Line>>)
    requires Valid(resumeInfo) && Valid(jobInfo)
    ensures r.Some? ==> |r.value| <= 1 && forall i :: 0 <= i < |r.value| ==> r.value[i].YearsGap?
  {
    if YearsOfExperience !in resumeInfo.keys || YearsOfExperience !in jobInfo.keys then Some([])
    else
      var rv := resumeInfo.values[YearsOfExperience];
      var jv := jobInfo.values[YearsOfExperience];
      match YearsLess(rv, jv)
      case None => None
      case Some(less) => if less then Some([YearsGap(ValueText(jv), ValueText(rv))]) else Some([])
  }

  /** The feedback lines: the verdict, the title part, the missing-items lines, the years part; `None` when any part raises. */
  function FeedbackLines(order: SetOrder, score: real, scores: Dict<Criterion, real>,
                         resumeInfo: Dict<Category, Value>, jobInfo: Dict<Category, Value>): Option<seq<Line>>
    requires Valid(scores) && Valid(resumeInfo) && Valid(jobInfo)
  {
    var t := TitlePart(scores, resumeInfo, jobInfo);
    var m := MissingLines(order, resumeInfo, jobInfo, jobInfo.keys);
    var y := YearsPart(resumeInfo, jobInfo);
    if t.Some? && m.Some? && y.Some? then Some([Verdict(score)] + t.value + m.value + y.value) else None
  }

  /** The lines of the four parts, laid end to end. */
  lemma PartsInOrder(v: Line, t: seq<Line>, m: seq<Line>, y: seq<Line>)
    requires IsVerdict(v) && |t| <= 1 && |y| <= 1
    requires forall i :: 0 <= i < |t| ==> t[i].TitleMismatch?
    requires forall i :: 0 <= i < |m| ==> m[i].MissingItemsLine?
    requires forall i :: 0 <= i < |y| ==> y[i].YearsGap?
    ensures var ls := [v] + t + m + y;
      && ls[0] == v
      && (forall i :: 1 <= i < |ls| ==> !IsVerdict(ls[i]))
      && (forall i :: 0 <= i < |ls| && ls[i].TitleMismatch? ==> i == 1)
      && (forall i :: 0 <= i < |ls| && ls[i].YearsGap? ==> i == |ls| - 1)
  {
    var ls := [v] + t + m + y;
    forall i | 1 <= i < |ls|
      ensures !IsVerdict(ls[i])
      ensures ls[i].TitleMismatch? ==> i == 1
      ensures ls[i].YearsGap? ==> i == |ls| - 1
    {
      if i < 1 + |t| {
        assert ls[i] == t[i - 1];
      } else if i < 1 + |t| + |m| {
        assert ls[i] == m[i - 1 - |t|];
      } else {
        assert ls[i] == y[i - 1 - |t| - |m|];
      }
    }
  }

  /** The feedback starts with the verdict for the score and holds no other verdict; a title line can only come second, a years line only last. */
  lemma FeedbackOrder(order: SetOrder, score: real, scores: Dict<Criterion, real>,
                      resumeInfo: Dict<Category, Value>, jobInfo: Dict<Category, Value>)
    requires Valid(scores) && Valid(resumeInfo) && Valid(jobInfo)
    ensures var r := FeedbackLines(order, score, scores, resumeInfo, jobInfo);
      r.Some? ==>
        && r.value[0] == Verdict(score)
        && (forall i :: 1 <= i < |r.value| ==> !IsVerdict(r.value[i]))
        && (forall i :: 0 <= i < |r.value| && r.value[i].TitleMismatch? ==> i == 1)
        && (forall i :: 0 <= i < |r.value| && r.value[i].YearsGap? ==> i == |r.value| - 1)
  {
    var r := FeedbackLines(order, score, scores, resumeInfo, jobInfo);
    if r.Some? {
      PartsInOrder(Verdict(score), TitlePart(scores, resumeInfo, jobInfo).value,
                   MissingLines(order, resumeInfo, jobInfo, jobInfo.keys).value, YearsPart(resumeInfo, jobInfo).value);
    }
  }

  /** For the categories `ks`, the missing-items lines a resume without errors gets: one per lacking category, in order. */
  function MissingFor(order: SetOrder, resumeInfo: Dict<Category, Value>, jobInfo: Dict<Category, Value>, ks: seq<Category>): (r: seq<Line>)
    requires Valid(resumeInfo) && Valid(jobInfo)
    ensures forall i :: 0 <= i < |r| ==>
      && r[i].MissingItemsLine? && r[i].category in ks && Lacking(resumeInfo, jobInfo, r[i].category)
      && r[i].items == order(MissingItems(resumeInfo, jobInfo, r[i].category))
    ensures forall c :: c in ks && Lacking(resumeInfo, jobInfo, c) ==>
      MissingItemsLine(c, order(MissingItems(resumeInfo, jobInfo, c))) in r
  {
    if ks == [] then []
    else
      var init := ks[..|ks| - 1];
      var c := ks[|ks| - 1];
      assert forall k :: k in ks <==> k in init || k == c;
      var rest := MissingFor(order, resumeInfo, jobInfo, init);
      if Lacking(resumeInfo, jobInfo, c) then rest + [MissingItemsLine(c, order(MissingItems(resumeInfo, jobInfo, c)))]
      else rest
  }

  /** On shaped info dicts with the same keys, the missing-items part never raises and gives exactly `MissingFor`. */
  lemma {:induction false} MissingLinesShaped(order: SetOrder, resumeInfo: Dict<Category, Value>, jobInfo: Dict<Category, Value>, ks: seq<Category>)
    requires Valid(resumeInfo) && Valid(jobInfo) && Shaped(resumeInfo) && Shaped(jobInfo)
    requires resumeInfo.keys == jobInfo.keys && forall k :: k in ks ==> k in jobInfo.keys
    ensures MissingLines(order, resumeInfo, jobInfo, ks) == Some(MissingFor(order, resumeInfo, jobInfo, ks))
  {
    if ks != [] {
      var init := ks[..|ks| - 1];
      var c := ks[|ks| - 1];
      assert forall k :: k in init ==> k in ks;
      MissingLinesShaped(order, resumeInfo, jobInfo, init);
      assert c in resumeInfo.keys;
      assert jobInfo.values[c].Years? <==> c == YearsOfExperience;
      assert resumeInfo.values[c].Years? <==> c == YearsOfExperience;
      var rest := MissingFor(order, resumeInfo, jobInfo, init);
      if Lacking(resumeInfo, jobInfo, c) {
        assert MissingPart(order, resumeInfo, jobInfo, c) == Some([MissingItemsLine(c, order(MissingItems(resumeInfo, jobInfo, c)))]);
      } else {
        assert MissingPart(order, resumeInfo, jobInfo, c) == Some([]);
        assert rest + [] == rest;
      }
    }
  }

  /**
   * What `provide_feedback` does with the results of `calculate_ats_score`: it never raises; after the
   * verdict comes a title line exactly when the title score is below 0.5, the lines of `MissingFor`,
   * and a years line exactly when the resume shows fewer years than the job asks for.
   */
  lemma FeedbackShaped(order: SetOrder, score: real, scores: Dict<Criterion, real>,
                       resumeInfo: Dict<Category, Value>, jobInfo: Dict<Category, Value>)
    requires Valid(scores) && Valid(resumeInfo) && Valid(jobInfo) && Shaped(resumeInfo) && Shaped(jobInfo)
    requires resumeInfo.keys == jobInfo.keys
    requires JobTitle in jobInfo.keys ==> Of(JobTitle) in scores.keys
    ensures FeedbackLines(order, score, scores, resumeInfo, jobInfo).Some?
    ensures TitlePart(scores, resumeInfo, jobInfo) ==
      Some(if JobTitle in jobInfo.keys && scores.values[Of(JobTitle)] < 0.5
           then [TitleMismatch(Join(resumeInfo.values[JobTitle].list, " "), Join(jobInfo.values[JobTitle].list, " "))]
           else [])
    ensures MissingLines(order, resumeInfo, jobInfo, jobInfo.keys) == Some(MissingFor(order, resumeInfo, jobInfo, jobInfo.keys))
    ensures YearsPart(resumeInfo, jobInfo) ==
      Some(if YearsOfExperience in jobInfo.keys && resumeInfo.values[YearsOfExperience].years < jobInfo.values[YearsOfExperience].years
           then [YearsGap(NatToString(jobInfo.values[YearsOfExperience].years), NatToString(resumeInfo.values[YearsOfExperience].years))]
           else [])
  {
    MissingLinesShaped(order, resumeInfo, jobInfo, jobInfo.keys);
  }

  /** One more category extends the missing-items loop by that category's part. */
  lemma MissingLinesSnoc(order: SetOrder, resumeInfo: Dict<Category, Value>, jobInfo: Dict<Category, Value>, ks: seq<Category>, i: nat)
    requires Valid(resumeInfo) && Valid(jobInfo) && i < |ks| && forall k :: k in ks ==> k in jobInfo.keys
    ensures forall k :: k in ks[..i] ==> k in jobInfo.keys
    ensures forall k :: k in ks[..i + 1] ==> k in jobInfo.keys
    ensures MissingLines(order, resumeInfo, jobInfo, ks[..i + 1]) ==
      match MissingLines(order, resumeInfo, jobInfo, ks[..i])
      case None => None
      case Some(ls) =>
        match MissingPart(order, resumeInfo, jobInfo, ks[i])
        case None => None
        case Some(l) => Some(ls + l)
  {
    assert forall k :: k in ks[..i] ==> k in ks;
    assert forall k :: k in ks[..i + 1] ==> k in ks;
    assert ks[..i + 1][..i] == ks[..i];
  }

  /** The loop over `job_info` of `provide_feedback`: appends the missing-items lines, or stops where one raises. */
  method AddMissingLines(order: SetOrder, resumeInfo: Dict<Category, Value>, jobInfo: Dict<Category, Value>, head: seq<Line>)
    returns (r: Option<seq<Line>>)
    requires Valid(resumeInfo) && Valid(jobInfo)
    ensures MissingLines(order, resumeInfo, jobInfo, jobInfo.keys).None? ==> r.None?
    ensures MissingLines(order, resumeInfo, jobInfo, jobInfo.keys).Some? ==>
      r == Some(head + MissingLines(order, resumeInfo, jobInfo, jobInfo.keys).value)
  {
    var feedback := head;
    var keys := jobInfo.keys;
    for i := 0 to |keys|
      invariant forall k :: k in keys[..i] ==> k in jobInfo.keys
      invariant MissingLines(order, resumeInfo, jobInfo, keys[..i]).Some?
      invariant feedback == head + MissingLines(order, resumeInfo, jobInfo, keys[..i]).value
    {
      var c := keys[i];
      MissingLinesSnoc(order, resumeInfo, jobInfo, keys, i);
      if c != YearsOfExperience && c != JobTitle {
        var jv := jobInfo.values[c];
        if !jv.Items? || c !in resumeInfo.keys || !resumeInfo.values[c].Items? {
          MissingLinesFail(order, resumeInfo, jobInfo, keys, i + 1);
          return None;
        }
        var missing := ToSet(jv.list) - ToSet(resumeInfo.values[c].list);
        if missing != {} {
          feedback := feedback + [MissingItemsLine(c, order(missing))];
        }
      }
    }
    assert keys[..|keys|] == keys;
    return Some(feedback);
  }

  /**
   * `provide_feedback`: the verdict, the title line, the missing-items lines and the years line,
   * rendered and joined with newlines; `None` when it raises.
   */
  method ProvideFeedback(order: SetOrder, score: real, scores: Dict<Criterion, real>,
                         resumeInfo: Dict<Category, Value>, jobInfo: Dict<Category, Value>) returns (r: Option<Str>)
    requires Valid(scores) && Valid(resumeInfo) && Valid(jobInfo)
    ensures FeedbackLines(order, score, scores, resumeInfo, jobInfo).None? ==> r.None?
    ensures FeedbackLines(order, score, scores, resumeInfo, jobInfo).Some? ==>
      r == Some(FeedbackText(FeedbackLines(order, score, scores, resumeInfo, jobInfo).value))
  {
    var feedback: seq<Line>;
    if score < 70.0 {
      feedback := [NeedsImprovement];
    } else if score < 85.0 {
      feedback := [GoodMatch];
    } else {
      feedback := [ExcellentMatch];
    }
    if JobTitle in resumeInfo.keys && JobTitle in jobInfo.keys {
      var rv := resumeInfo.values[JobTitle];
      var jv := jobInfo.values[JobTitle];
      if !rv.Items? || !jv.Items? || Of(JobTitle) !in scores.keys {
        return None;
      }
      var titleScore := scores.values[Of(JobTitle)];
      if titleScore < 0.5 {
        feedback := feedback + [TitleMismatch(Join(rv.list, " "), Join(jv.list, " "))];
      }
    }
    assert TitlePart(scores, resumeInfo, jobInfo).Some?;
    assert feedback == [Verdict(score)] + TitlePart(scores, resumeInfo, jobInfo).value;
    var withMissing := AddMissingLines(order, resumeInfo, jobInfo, feedback);
    if withMissing.None? {
      return None;
    }
    feedback := withMissing.value;
    ghost var lines := FeedbackLines(order, score, scores, resumeInfo, jobInfo);
    if YearsOfExperience in resumeInfo.keys && YearsOfExperience in jobInfo.keys {
      var rv := resumeInfo.values[YearsOfExperience];
      var jv := jobInfo.values[YearsOfExperience];
      var less := YearsLess(rv, jv);
      if less.None? {
        return None;
      }
      if less.value {
        feedback := feedback + [YearsGap(ValueText(jv), ValueText(rv))];
      }
    }
    assert YearsPart(resumeInfo, jobInfo).Some?;
    assert feedback == lines.value;
    return Some(FeedbackText(feedback));
  }
}
