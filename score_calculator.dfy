/**
 * The per-category scorers of the resume/job matcher. Every score is an exact rational (`real`);
 * the sentence-embedding model is given as an `Embedder` whose similarities are not assumed to lie in [0, 1].
 */
module ScoreCalculator {
  import opened Text

  /**
   * The pretrained sentence-embedding model, loaded once and only read afterwards.
   * `cosine(a, b)` is the cosine similarity of the embeddings of two texts; `skillSemantic(R, J)` is the
   * mean, over the job skills in J, of the best similarity to any resume skill in R.
   */
  datatype Embedder = Embedder(cosine: (Str, Str) -> real, skillSemantic: (set<Str>, set<Str>) -> real)

  function Min(a: real, b: real): real { if a <= b then a else b }

  /** `part / whole` for a part no larger than a positive whole. */
  function Fraction(part: nat, whole: nat): (r: real)
    requires 0 < whole && part <= whole
    ensures 0.0 <= r <= 1.0
    ensures r == 1.0 <==> part == whole
    ensures r == 0.0 <==> part == 0
    ensures r * whole as real == part as real
  {
    var q := part as real / whole as real;
    assert q * whole as real == part as real;
    q
  }

  /** `min(num / den, 1.0)` for a positive denominator. */
  function CappedRatio(num: nat, den: nat): (r: real)
    requires den > 0
    ensures 0.0 <= r <= 1.0
    ensures r == 1.0 <==> num >= den
    ensures num < den ==> r * den as real == num as real
  {
    var q := num as real / den as real;
    assert q * den as real == num as real;
    assert q >= 1.0 <==> num >= den;
    Min(q, 1.0)
  }

  // ---------------------------------------------------------------------------------------------
  // Years of experience

  /** Years-of-experience score: a vacuous pass when the job asks for no years, else the capped ratio. */
  function ExperienceScore(resumeYears: nat, jobYears: nat): (r: real)
    ensures jobYears == 0 ==> r == 1.0
    ensures 0.0 <= r <= 1.0
    ensures jobYears > 0 ==> (r == 1.0 <==> resumeYears >= jobYears)
    ensures jobYears > 0 && resumeYears < jobYears ==> r * jobYears as real == resumeYears as real
  {
    if jobYears == 0 then 1.0 else CappedRatio(resumeYears, jobYears)
  }

  lemma TwoYearsAgainstFive()
    ensures ExperienceScore(2, 5) == 0.4
  {
  }

  // ---------------------------------------------------------------------------------------------
  // Generic overlap (experience level, job type, industry, location)

  /** Generic score: the share of the job's list entries whose value also occurs on the resume's list. */
  function CategoryScore(resumeItems: seq<Str>, jobItems: seq<Str>): (r: real)
    ensures jobItems == [] ==> r == 1.0
    ensures 0.0 <= r <= 1.0
    ensures r == 1.0 <==> ToSet(jobItems) <= ToSet(resumeItems) && NoDup(jobItems)
    ensures r == 0.0 <==> jobItems != [] && ToSet(resumeItems) !! ToSet(jobItems)
    ensures jobItems != [] ==> r * |jobItems| as real == |ToSet(resumeItems) * ToSet(jobItems)| as real
  {
    if jobItems == [] then 1.0
    else
      var common := ToSet(resumeItems) * ToSet(jobItems);
      SetOfSeqSize(jobItems);
      OverlapSize(ToSet(resumeItems), ToSet(jobItems));
      Fraction(|common|, |jobItems|)
  }

  // ---------------------------------------------------------------------------------------------
  // Education

  /** `sub` matches `s` at position `i`, from the `j`-th character of `sub` on. */
  predicate MatchesAt(s: Str, sub: Str, i: nat, j: nat)
    requires i + |sub| <= |s| && j <= |sub|
    decreases |sub| - j
  {
    j == |sub| || (s[i + j] == sub[j] && MatchesAt(s, sub, i, j + 1))
  }

  /** `sub` occurs in `s` at some position `i` or later. */
  predicate ContainsFrom(s: Str, sub: Str, i: nat)
    decreases |s| - i
  {
    i + |sub| <= |s| && (MatchesAt(s, sub, i, 0) || ContainsFrom(s, sub, i + 1))
  }

  /** `sub in s` */
  predicate Contains(s: Str, sub: Str) {
    ContainsFrom(s, sub, 0)
  }

  /** A match fixes every later character of the pattern. */
  lemma {:induction false} MatchesAtChar(s: Str, sub: Str, i: nat, j: nat, k: nat)
    requires i + |sub| <= |s| && j <= k < |sub| && MatchesAt(s, sub, i, j)
    ensures s[i + k] == sub[k]
    decreases k - j
  {
    if j < k { MatchesAtChar(s, sub, i, j + 1, k); }
  }

  /** A string lacking one of the characters of `sub` does not contain `sub`. */
  lemma {:induction false} AbsentChar(s: Str, sub: Str, i: nat, k: nat)
    requires k < |sub| && sub[k] !in s
    ensures !ContainsFrom(s, sub, i)
    decreases |s| - i
  {
    if i + |sub| <= |s| {
      if MatchesAt(s, sub, i, 0) { MatchesAtChar(s, sub, i, 0, k); }
      AbsentChar(s, sub, i + 1, k);
    }
  }

  /** `s[i:].replace(pat, "")` for a non-empty pattern: left to right, non-overlapping. */
  function RemoveFrom(s: Str, pat: Str, i: nat): (r: Str)
    requires pat != [] && i <= |s|
    ensures |r| <= |s| - i
    decreases |s| - i
  {
    if i + |pat| > |s| then s[i..]
    else if MatchesAt(s, pat, i, 0) then RemoveFrom(s, pat, i + |pat|)
    else [s[i]] + RemoveFrom(s, pat, i + 1)
  }

  /** Where the pattern's first character does not occur, nothing is removed. */
  lemma {:induction false} RemoveAbsent(s: Str, pat: Str, i: nat)
    requires pat != [] && i <= |s| && pat[0] !in s[i..]
    ensures RemoveFrom(s, pat, i) == s[i..]
    decreases |s| - i
  {
    if i + |pat| <= |s| {
      assert s[i] == s[i..][0];
      assert s[i + 1..] == s[i..][1..];
      RemoveAbsent(s, pat, i + 1);
      assert s[i..] == [s[i]] + s[i + 1..];
    }
  }

  /** A pattern given as a slice matches there. */
  lemma {:induction false} MatchesSlice(s: Str, pat: Str, i: nat, j: nat)
    requires i + |pat| <= |s| && j <= |pat| && s[i..i + |pat|] == pat
    ensures MatchesAt(s, pat, i, j)
    decreases |pat| - j
  {
    if j < |pat| {
      assert s[i + j] == s[i..i + |pat|][j];
      MatchesSlice(s, pat, i, j + 1);
    }
  }

  /** An occurrence of the pattern is dropped and the scan resumes after it. */
  lemma DropAt(s: Str, pat: Str, i: nat)
    requires pat != [] && i + |pat| <= |s| && s[i..i + |pat|] == pat
    ensures RemoveFrom(s, pat, i) == RemoveFrom(s, pat, i + |pat|)
  {
    MatchesSlice(s, pat, i, 0);
  }

  /** A stretch without the pattern's first character is kept as it is. */
  lemma {:induction false} RemoveSkip(s: Str, pat: Str, i: nat, j: nat)
    requires pat != [] && i <= j && j + |pat| <= |s| + 1 && pat[0] !in s[i..j]
    ensures RemoveFrom(s, pat, i) == s[i..j] + RemoveFrom(s, pat, j)
    decreases j - i
  {
    if i < j {
      assert s[i] == s[i..j][0];
      assert s[i + 1..j] == s[i..j][1..];
      RemoveSkip(s, pat, i + 1, j);
      assert s[i..j] == [s[i]] + s[i + 1..j];
    }
  }

  /** One occurrence of the pattern between two stretches without its first character is removed. */
  lemma RemoveMiddle(a: Str, pat: Str, b: Str)
    requires pat != [] && pat[0] !in a && pat[0] !in b
    ensures RemoveFrom(a + pat + b, pat, 0) == a + b
  {
    var s := a + pat + b;
    var i := |a|;
    var j := |a| + |pat|;
    assert s[0..i] == a;
    assert s[i..j] == pat;
    assert s[j..] == b;
    RemoveSkip(s, pat, 0, i);
    assert RemoveFrom(s, pat, 0) == a + RemoveFrom(s, pat, i);
    DropAt(s, pat, i);
    RemoveAbsent(s, pat, j);
    assert RemoveFrom(s, pat, i) == b;
  }

  /** `s.replace(pat, "")` */
  function RemoveAll(s: Str, pat: Str): (r: Str)
    requires pat != []
  {
    RemoveFrom(s, pat, 0)
  }

  const HighSchool: Str := "high school"
  const Associate: Str := "associate"
  const Bachelor: Str := "bachelor"
  const Master: Str := "master"
  const Phd: Str := "phd"

  predicate IsLevelName(s: Str) { s in [HighSchool, Associate, Bachelor, Master, Phd] }

  /** The string the classifier inspects: lower-cased, then every "'s" removed, then every "'" removed. */
  function CleanEducation(edu: Str): Str {
    RemoveAll(RemoveAll(Lower(edu), "'s"), "'")
  }

  predicate HighSchoolHit(e: Str) { Contains(e, "high school") || Contains(e, "ged") }
  predicate AssociateHit(e: Str) { Contains(e, "associate") || Contains(e, "aa") || Contains(e, "as") }
  predicate BachelorHit(e: Str) { Contains(e, "bachelor") || Contains(e, "ba") || Contains(e, "bs") }
  predicate MasterHit(e: Str) { Contains(e, "master") || Contains(e, "ma") || Contains(e, "ms") || Contains(e, "mba") }
  predicate PhdHit(e: Str) { Contains(e, "phd") || Contains(e, "doctorate") || Contains(e, "doctoral") }

  /**
   * Classify a free-form education string: the substring tests run in a fixed order and the first hit
   * wins; a string with no hit is returned cleaned but otherwise unchanged.
   */
  function NormalizeEducation(edu: Str): (r: Str)
    ensures IsLevelName(r) || r == CleanEducation(edu)
  {
    var e := CleanEducation(edu);
    if HighSchoolHit(e) then HighSchool
    else if AssociateHit(e) then Associate
    else if BachelorHit(e) then Bachelor
    else if MasterHit(e) then Master
    else if PhdHit(e) then Phd
    else e
  }

  /** The classification is first-hit-wins in the fixed order high school, associate, bachelor, master, phd. */
  lemma NormalizeEducationFirstHit(edu: Str)
    ensures var e := CleanEducation(edu); var r := NormalizeEducation(edu);
      && (r == HighSchool <==> HighSchoolHit(e))
      && (r == Associate <==> !HighSchoolHit(e) && AssociateHit(e))
      && (r == Bachelor <==> !HighSchoolHit(e) && !AssociateHit(e) && BachelorHit(e))
      && (r == Master <==> !HighSchoolHit(e) && !AssociateHit(e) && !BachelorHit(e) && MasterHit(e))
      && (r == Phd <==> !HighSchoolHit(e) && !AssociateHit(e) && !BachelorHit(e) && !MasterHit(e) && PhdHit(e))
  {
    SelfHit(CleanEducation(edu));
  }

  /** Every level name contains its own keyword, so a string with no hit is never a level name. */
  lemma SelfHit(e: Str)
    ensures e == HighSchool ==> HighSchoolHit(e)
    ensures e == Associate ==> AssociateHit(e)
    ensures e == Bachelor ==> BachelorHit(e)
    ensures e == Master ==> MasterHit(e)
    ensures e == Phd ==> PhdHit(e)
  {
  }

  /** Levels: high school 1, associate 2, bachelor 3, master 4, phd 5; anything else 0. */
  function EduLevel(name: Str): (n: nat)
    ensures n <= 5
    ensures n == 0 <==> !IsLevelName(name)
  {
    if name == HighSchool then 1
    else if name == Associate then 2
    else if name == Bachelor then 3
    else if name == Master then 4
    else if name == Phd then 5
    else 0
  }

  /** The highest level among the normalised entries, 0 for an empty list. */
  function MaxLevel(edus: seq<Str>): (n: nat)
    ensures n <= 5
    ensures forall i :: 0 <= i < |edus| ==> EduLevel(NormalizeEducation(edus[i])) <= n
    ensures n == 0 || exists i :: 0 <= i < |edus| && EduLevel(NormalizeEducation(edus[i])) == n
  {
    if edus == [] then 0
    else
      var head := EduLevel(NormalizeEducation(edus[0]));
      var rest := MaxLevel(edus[1..]);
      assert forall i :: 1 <= i < |edus| ==> edus[i] == edus[1..][i - 1];
      if head >= rest then head else rest
  }

  /** Education score: a vacuous pass when the job names no known level, else the capped ratio of levels. */
  function EducationScore(resumeEdu: seq<Str>, jobEdu: seq<Str>): (r: real)
    ensures 0.0 <= r <= 1.0
    ensures MaxLevel(jobEdu) == 0 ==> r == 1.0
    ensures r == 1.0 <==> MaxLevel(jobEdu) == 0 || MaxLevel(resumeEdu) >= MaxLevel(jobEdu)
    ensures MaxLevel(jobEdu) > 0 ==> r == CappedRatio(MaxLevel(resumeEdu), MaxLevel(jobEdu))
  {
    var resumeLevel := MaxLevel(resumeEdu);
    var jobLevel := MaxLevel(jobEdu);
    if jobLevel == 0 then 1.0 else CappedRatio(resumeLevel, jobLevel)
  }

  // ---------------------------------------------------------------------------------------------
  // Job title

  const StopWords: set<Str> := {"a", "an", "the", "and", "or", "but", "in", "on", "at", "to", "for", "of"}

  /** The lower-cased words of a title that are not stop words, in order. */
  function TitleTokens(title: Str): seq<Str> {
    NonStop(Split(title))
  }

  function NonStop(words: seq<Str>): (ts: seq<Str>)
    ensures forall t :: t in ts ==> t !in StopWords
  {
    if words == [] then []
    else if Lower(words[0]) in StopWords then NonStop(words[1..])
    else [Lower(words[0])] + NonStop(words[1..])
  }

  /** A title yields no tokens exactly when every one of its words is a stop word (or it has none). */
  lemma {:induction false} NonStopEmpty(words: seq<Str>)
    ensures NonStop(words) == [] <==> forall i :: 0 <= i < |words| ==> Lower(words[i]) in StopWords
  {
    if words != [] {
      NonStopEmpty(words[1..]);
      assert forall i :: 1 <= i < |words| ==> words[i] == words[1..][i - 1];
    }
  }

  lemma JaccardFacts(a: set<Str>, b: set<Str>)
    ensures |a * b| <= |a + b|
    ensures |a * b| == |a + b| <==> a == b
    ensures |a * b| == 0 <==> a !! b
  {
    OverlapSize(a * b, a + b);
    assert (a * b) * (a + b) == a * b;
    if |a * b| == |a + b| {
      assert a + b <= a * b;
      assert a == b;
    }
    OverlapSize(a, b);
  }

  /** Jaccard similarity of two token sets, not both empty. */
  function Jaccard(a: set<Str>, b: set<Str>): (r: real)
    requires a + b != {}
    ensures 0.0 <= r <= 1.0
    ensures r == 1.0 <==> a == b
    ensures r == 0.0 <==> a !! b
    ensures r * |a + b| as real == |a * b| as real
  {
    var inter := a * b;
    var union := a + b;
    OverlapSize(a, union);
    OverlapSize(b, union);
    assert a * union == a && b * union == b;
    JaccardFacts(a, b);
    Fraction(|inter|, |union|)
  }

  /**
   * Job-title score: 0 for an empty title or one made only of stop words, else the mean of the Jaccard
   * similarity of the token sets and the embedding similarity of the two untokenised titles.
   */
  function JobTitleScore(resumeTitle: Str, jobTitle: Str, emb: Embedder): (r: real)
    ensures resumeTitle == [] || jobTitle == [] ==> r == 0.0
    ensures TitleTokens(resumeTitle) == [] || TitleTokens(jobTitle) == [] ==> r == 0.0
    ensures resumeTitle != [] && jobTitle != [] && TitleTokens(resumeTitle) != [] && TitleTokens(jobTitle) != [] ==>
              var rs := ToSet(TitleTokens(resumeTitle));
              var js := ToSet(TitleTokens(jobTitle));
              rs + js != {} && r == (Jaccard(rs, js) + emb.cosine(resumeTitle, jobTitle)) / 2.0
  {
    if resumeTitle == [] || jobTitle == [] then 0.0
    else
      var rt := TitleTokens(resumeTitle);
      var jt := TitleTokens(jobTitle);
      if rt == [] || jt == [] then 0.0
      else
        assert rt[0] in ToSet(rt);
        (Jaccard(ToSet(rt), ToSet(jt)) + emb.cosine(resumeTitle, jobTitle)) / 2.0
  }

  /** Two titles with the same token set and embedding similarity 1 score 1; with disjoint tokens, half the similarity. */
  lemma JobTitleExtremes(resumeTitle: Str, jobTitle: Str, emb: Embedder)
    requires TitleTokens(resumeTitle) != [] && TitleTokens(jobTitle) != []
    ensures (ToSet(TitleTokens(resumeTitle)) == ToSet(TitleTokens(jobTitle)) && emb.cosine(resumeTitle, jobTitle) == 1.0)
              ==> JobTitleScore(resumeTitle, jobTitle, emb) == 1.0
    ensures (ToSet(TitleTokens(resumeTitle)) !! ToSet(TitleTokens(jobTitle)))
              ==> JobTitleScore(resumeTitle, jobTitle, emb) == emb.cosine(resumeTitle, jobTitle) / 2.0
  {
    assert TitleTokens(resumeTitle)[0] in ToSet(TitleTokens(resumeTitle));
  }

  // ---------------------------------------------------------------------------------------------
  // Skills

  /** A skill with all whitespace removed, lower-cased: `''.join(skill.lower().split())`. */
  function NormalizeSkill(skill: Str): (r: Str)
    ensures r == DropSpaces(Lower(skill))
    ensures |r| <= |skill|
    ensures forall i :: 0 <= i < |r| ==> !IsSpace(r[i]) && !IsUpper(r[i])
  {
    var low := Lower(skill);
    var words := Split(low);
    var ok := (c: char) => !IsUpper(c);
    SplitPreserves(low, ok);
    JoinPreserves(words, "", (c: char) => !IsSpace(c) && !IsUpper(c));
    JoinSplitDropsSpaces(low);
    Join(words, "")
  }

  /** Normalising a normalised skill changes nothing. */
  lemma NormalizeSkillIdempotent(skill: Str)
    ensures NormalizeSkill(NormalizeSkill(skill)) == NormalizeSkill(skill)
  {
    var r := NormalizeSkill(skill);
    assert Lower(r) == r;
    DropSpacesNoSpace(r);
  }

  function SkillSet(skills: seq<Str>): (s: set<Str>)
    ensures skills != [] ==> s != {}
  {
    var s := set sk | sk in skills :: NormalizeSkill(sk);
    assert skills != [] ==> NormalizeSkill(skills[0]) in s;
    s
  }

  /** Share of the job's normalised skills that the resume names exactly. */
  function ExactMatchScore(resumeSet: set<Str>, jobSet: set<Str>): (r: real)
    requires jobSet != {}
    ensures 0.0 <= r <= 1.0
    ensures r == 1.0 <==> jobSet <= resumeSet
    ensures r == 0.0 <==> resumeSet !! jobSet
    ensures r * |jobSet| as real == |resumeSet * jobSet| as real
  {
    var common := resumeSet * jobSet;
    OverlapSize(resumeSet, jobSet);
    Fraction(|common|, |jobSet|)
  }

  /** The semantic term: 0 when either side has no skills, else the embedding model's mean best match. */
  function SemanticScore(resumeSet: set<Str>, jobSet: set<Str>, emb: Embedder): (r: real)
    ensures resumeSet == {} || jobSet == {} ==> r == 0.0
    ensures resumeSet != {} && jobSet != {} ==> r == emb.skillSemantic(resumeSet, jobSet)
  {
    if |resumeSet| > 0 && |jobSet| > 0 then emb.skillSemantic(resumeSet, jobSet) else 0.0
  }

  /** Skills score: a vacuous pass for an empty job list, else the mean of the exact-match and semantic terms. */
  function SkillsScore(resumeSkills: seq<Str>, jobSkills: seq<Str>, emb: Embedder): (r: real)
    ensures jobSkills == [] ==> r == 1.0
    ensures jobSkills != [] ==>
              var rs := SkillSet(resumeSkills);
              var js := SkillSet(jobSkills);
              js != {} && r == (ExactMatchScore(rs, js) + SemanticScore(rs, js, emb)) / 2.0
  {
    if jobSkills == [] then 1.0
    else
      var rs := SkillSet(resumeSkills);
      var js := SkillSet(jobSkills);
      (ExactMatchScore(rs, js) + SemanticScore(rs, js, emb)) / 2.0
  }

  /** A resume with no skills scores 0 against any non-empty job list: both the exact and the semantic terms are 0. */
  lemma NoResumeSkills(jobSkills: seq<Str>, emb: Embedder)
    requires jobSkills != []
    ensures SkillsScore([], jobSkills, emb) == 0.0
  {
    assert SkillSet([]) == {};
    assert ExactMatchScore({}, SkillSet(jobSkills)) == 0.0;
  }

  /** When every job skill is named exactly on the resume, the exact term contributes fully. */
  lemma SkillsFullOverlap(resumeSkills: seq<Str>, jobSkills: seq<Str>, emb: Embedder)
    requires jobSkills != []
    requires forall j :: j in jobSkills ==> exists r :: r in resumeSkills && NormalizeSkill(r) == NormalizeSkill(j)
    ensures SkillsScore(resumeSkills, jobSkills, emb) == (1.0 + emb.skillSemantic(SkillSet(resumeSkills), SkillSet(jobSkills))) / 2.0
  {
    assert SkillSet(jobSkills) <= SkillSet(resumeSkills);
    assert resumeSkills != [] by {
      var r :| r in resumeSkills && NormalizeSkill(r) == NormalizeSkill(jobSkills[0]);
    }
  }

  // Worked examples of the classifier

  lemma CleanMaster() ensures CleanEducation("master") == "master" {
    assert Lower("master") == "master";
    RemoveAbsent("master", "'s", 0);
    RemoveAbsent("master", "'", 0);
  }
  lemma MasterIsAssociate() ensures NormalizeEducation("master") == Associate {
    CleanMaster();
  }
  lemma MbaIsBachelor() ensures NormalizeEducation("mba") == Bachelor {
    assert CleanEducation("mba") == "mba";
  }
  lemma MsIsMaster() ensures NormalizeEducation("MS") == Master {
    assert CleanEducation("MS") == "ms";
  }
  lemma PhdIsPhd() ensures NormalizeEducation("PhD") == Phd {
    assert CleanEducation("PhD") == "phd";
  }
  lemma LowerMastersDegree() ensures Lower("Master's degree") == "master's degree" {
  }
  lemma CleanMastersDegree() ensures CleanEducation("Master's degree") == "master degree" {
    LowerMastersDegree();
    MastersDegreeApostrophes();
  }
  lemma MastersDegreeApostrophes()
    ensures RemoveAll(RemoveAll("master's degree", "'s"), "'") == "master degree"
  {
    DropApostropheS();
    NoApostrophe();
  }
  lemma DropApostropheS() ensures RemoveFrom("master's degree", "'s", 0) == "master degree" {
    assert "master's degree" == "master" + "'s" + " degree";
    RemoveMiddle("master", "'s", " degree");
    assert "master" + " degree" == "master degree";
  }
  lemma NoApostrophe() ensures RemoveFrom("master degree", "'", 0) == "master degree" {
    RemoveAbsent("master degree", "'", 0);
  }
  lemma MasterDegreeHits() ensures !HighSchoolHit("master degree") && AssociateHit("master degree") {
    NoGedInMasterDegree();
  }
  lemma NoGedInMasterDegree() ensures !ContainsFrom("master degree", "ged", 0) {
    var s := "master degree";
    assert !ContainsFrom(s, "ged", 11);
    assert !ContainsFrom(s, "ged", 10);
    assert !ContainsFrom(s, "ged", 9);
    assert !ContainsFrom(s, "ged", 8);
    assert !ContainsFrom(s, "ged", 7);
    assert !ContainsFrom(s, "ged", 6);
    assert !ContainsFrom(s, "ged", 5);
    assert !ContainsFrom(s, "ged", 4);
    assert !ContainsFrom(s, "ged", 3);
    assert !ContainsFrom(s, "ged", 2);
    assert !ContainsFrom(s, "ged", 1);
  }
  lemma MastersDegreeIsAssociate() ensures NormalizeEducation("Master's degree") == Associate {
    CleanMastersDegree();
    MasterDegreeHits();
  }
  lemma CleanBachelors() ensures CleanEducation("bachelor's") == "bachelor" {
    assert Lower("bachelor's") == "bachelor's";
    assert "bachelor's" == "bachelor" + "'s" + "";
    RemoveMiddle("bachelor", "'s", "");
    assert "bachelor" + "" == "bachelor";
    RemoveAbsent("bachelor", "'", 0);
  }
  lemma BachelorsIsBachelor() ensures NormalizeEducation("bachelor's") == Bachelor {
    CleanBachelors();
    BachelorHits();
  }
  lemma BachelorHits() ensures !HighSchoolHit("bachelor") && !AssociateHit("bachelor") && BachelorHit("bachelor") {
    var e := "bachelor";
    AbsentChar(e, "high school", 0, 4);
    AbsentChar(e, "ged", 0, 0);
    AbsentChar(e, "associate", 0, 1);
    AbsentChar(e, "as", 0, 1);
    assert !ContainsFrom(e, "aa", 6);
    assert !ContainsFrom(e, "aa", 5);
    assert !ContainsFrom(e, "aa", 4);
    assert !ContainsFrom(e, "aa", 3);
    assert !ContainsFrom(e, "aa", 2);
    assert !ContainsFrom(e, "aa", 1);
    assert !ContainsFrom(e, "aa", 0);
    MatchesSlice(e, "bachelor", 0, 0);
  }
  lemma BachelorsAgainstMastersDegree() ensures EducationScore(["bachelor's"], ["Master's degree"]) == 1.0 {
    BachelorsIsBachelor();
    MastersDegreeIsAssociate();
    assert MaxLevel(["bachelor's"]) == 3;
    assert MaxLevel(["Master's degree"]) == 2;
  }
}
