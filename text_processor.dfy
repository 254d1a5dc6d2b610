/**
 * The extraction bookkeeping of the text processor: which categories are filled from a text, in which
 * order, and with what. The regex engine, spaCy and YAKE are given functions (`Nlp`); what is modelled
 * is the control logic around them.
 */
module TextProcessor {
  import opened Wrappers
  import opened Text
  import opened Dicts

  /** The categories `extract_categories` can produce, one per key of its dict. */
  datatype Category = JobTitle | Skills | Location | Education | Experience | JobType | Industry | YearsOfExperience

  /** The dict key under which each category is stored. */
  function Name(c: Category): Str {
    match c
    case JobTitle => "job_title"
    case Skills => "skills"
    case Location => "location"
    case Education => "education"
    case Experience => "experience"
    case JobType => "job_type"
    case Industry => "industry"
    case YearsOfExperience => "years_of_experience"
  }

  /** The category a key string names, if any. */
  function CategoryNamed(s: Str): (r: Option<Category>)
    ensures r.Some? ==> Name(r.value) == s
  {
    if s == "job_title" then Some(JobTitle)
    else if s == "skills" then Some(Skills)
    else if s == "location" then Some(Location)
    else if s == "education" then Some(Education)
    else if s == "experience" then Some(Experience)
    else if s == "job_type" then Some(JobType)
    else if s == "industry" then Some(Industry)
    else if s == "years_of_experience" then Some(YearsOfExperience)
    else None
  }

  /** Every category's key names that category: the names are pairwise different. */
  lemma NamedName(c: Category)
    ensures CategoryNamed(Name(c)) == Some(c)
  {
  }

  /** A value of the categories dict: a set of strings, or the years count. */
  datatype Entry = ItemSet(items: set<Str>) | Count(n: nat)

  /** A value of the info dict: a list of strings, or the years count. */
  datatype Value = Items(list: seq<Str>) | Years(years: nat)

  /** A spaCy named entity: its text and its label (`ORG`, `GPE`, ...). */
  datatype Entity = Entity(text: Str, tag: Str)

  /** The four union-all pattern tables. */
  datatype Table = EducationTable | ExperienceTable | JobTypeTable | IndustryTable

  function TableSize(t: Table): (n: nat)
    ensures n > 0
  {
    match t
    case EducationTable => 6
    case ExperienceTable => 6
    case JobTypeTable => 6
    case IndustryTable => 12
  }

  const TitlePatterns: nat := 3
  const SkillPatterns: nat := 4
  const YearsPatterns: nat := 4

  /** The first three skill patterns capture a group; the fourth (the technology names) does not. */
  predicate SkillPatternHasGroup(i: nat) { i < 3 }

  /**
   * The NLP primitives, as given functions of the text:
   * keywords: YAKE's keyword strings; sentences, entities: spaCy's;
   * titleSearch(i, t): group 1 of `re.search` with title pattern i;
   * skillFinditer(i, t): for each `re.finditer` match of skill pattern i, group 1 if it has one, else group 0;
   * findall(table, i, t): `re.findall` with pattern i of a table;
   * yearsSearch(i, t): `int(group(1))` of `re.search` with years pattern i;
   * infoYearsSearch(t): the same for the single years pattern of extract_info;
   * wholeWord(item, t): `re.search(r'\b' + re.escape(item) + r'\b', t, re.IGNORECASE)` found something.
   */
  datatype Nlp = Nlp(
    keywords: Str -> seq<Str>,
    sentences: Str -> seq<Str>,
    entities: Str -> seq<Entity>,
    titleSearch: (nat, Str) -> Option<Str>,
    skillFinditer: (nat, Str) -> seq<Str>,
    findall: (Table, nat, Str) -> seq<Str>,
    yearsSearch: (nat, Str) -> Option<nat>,
    infoYearsSearch: Str -> Option<nat>,
    wholeWord: (Str, Str) -> bool)

  /** `set(x.lower() for x in xs)` */
  function LowerAll(xs: seq<Str>): (r: set<Str>)
    ensures forall y :: y in r <==> exists x :: x in xs && y == Lower(x)
  {
    set x | x in xs :: Lower(x)
  }

  // ---------------------------------------------------------------- the categories dict

  /** The set stored under `k`, or the empty set a `defaultdict(set)` would supply. */
  function SetAt(d: Dict<Category, Entry>, k: Category): set<Str>
    requires Valid(d)
  {
    var v := Get(d, k);
    if v.Some? && v.value.ItemSet? then v.value.items else {}
  }

  predicate HoldsCount(d: Dict<Category, Entry>, k: Category)
    requires Valid(d)
  {
    Get(d, k).Some? && Get(d, k).value.Count?
  }

  /** `d[key].update(s)` on a `defaultdict(set)`: a missing key first gets the empty set, at the end of the order. */
  function AddTo(d: Dict<Category, Entry>, key: Category, s: set<Str>): (r: Dict<Category, Entry>)
    requires Valid(d)
    ensures Valid(r) && !HoldsCount(r, key)
    ensures key in d.keys ==> r.keys == d.keys
    ensures key !in d.keys ==> r.keys == d.keys + [key]
    ensures Get(r, key) == Some(ItemSet(SetAt(d, key) + s))
    ensures SetAt(r, key) == SetAt(d, key) + s
    ensures key !in d.keys ==> Get(r, key) == Some(ItemSet(s))
    ensures forall k :: k != key ==> Get(r, k) == Get(d, k)
  {
    assert SetAt(d, key) == {} ==> SetAt(d, key) + s == s;
    Put(d, key, ItemSet(SetAt(d, key) + s))
  }

  /** Two updates of one key are one update with both sets. */
  lemma AddToTwice(d: Dict<Category, Entry>, key: Category, s1: set<Str>, s2: set<Str>)
    requires Valid(d)
    ensures AddTo(AddTo(d, key, s1), key, s2) == AddTo(d, key, s1 + s2)
  {
    assert SetAt(d, key) + s1 + s2 == SetAt(d, key) + (s1 + s2);
    PutPut(d, key, ItemSet(SetAt(d, key) + s1), ItemSet(SetAt(d, key) + (s1 + s2)));
  }

  /** Updating a present key with nothing changes nothing. */
  lemma AddNothing(d: Dict<Category, Entry>, key: Category)
    requires Valid(d) && key in d.keys && !HoldsCount(d, key)
    ensures AddTo(d, key, {}) == d
  {
    assert SetAt(d, key) + {} == SetAt(d, key);
    assert ItemSet(SetAt(d, key)) == d.values[key];
    PutSame(d, key);
  }

  /** The `defaultdict(set)` that the extractors fill in place. */
  class Categories {
    var entries: Dict<Category, Entry>

    ghost predicate Valid()
      reads this
    {
      Dicts.Valid(entries)
    }

    constructor ()
      ensures Valid() && entries == Empty()
    {
      entries := Empty();
    }

    /** `categories[key].update(items)` */
    method Update(key: Category, items: set<Str>)
      requires Valid() && !HoldsCount(entries, key)
      modifies this
      ensures Valid()
      ensures entries == AddTo(old(entries), key, items)
    {
      entries := AddTo(entries, key, items);
    }

    /** `categories[key] = n` */
    method SetCount(key: Category, n: nat)
      requires Valid()
      modifies this
      ensures Valid()
      ensures entries == Put(old(entries), key, Count(n))
    {
      entries := Put(entries, key, Count(n));
    }
  }

  // ---------------------------------------------------------------- job title

  /** The first title pattern, from `i` on, whose search succeeds, with its capture. */
  function FirstTitleMatch(nlp: Nlp, text: Str, i: nat): (r: Option<(nat, Str)>)
    requires i <= TitlePatterns
    ensures r.Some? ==> i <= r.value.0 < TitlePatterns && nlp.titleSearch(r.value.0, text) == Some(r.value.1)
    ensures r.Some? ==> forall j :: i <= j < r.value.0 ==> nlp.titleSearch(j, text).None?
    ensures r.None? <==> forall j :: i <= j < TitlePatterns ==> nlp.titleSearch(j, text).None?
    decreases TitlePatterns - i
  {
    if i == TitlePatterns then None
    else match nlp.titleSearch(i, text)
      case Some(t) => Some((i, t))
      case None => FirstTitleMatch(nlp, text, i + 1)
  }

  /**
   * What `_extract_job_title` adds to the title set `current`: the stripped, lowercased capture of the
   * first matching pattern; failing that, the first sentence when the set is empty and there is one.
   */
  function TitleAdded(nlp: Nlp, text: Str, current: set<Str>): (r: set<Str>)
    ensures |r| <= 1
    ensures FirstTitleMatch(nlp, text, 0).Some? ==> r == {Lower(Strip(FirstTitleMatch(nlp, text, 0).value.1))}
    ensures r != {} && FirstTitleMatch(nlp, text, 0).None? ==>
      current == {} && nlp.sentences(text) != [] && r == {Lower(Strip(nlp.sentences(text)[0]))}
    ensures FirstTitleMatch(nlp, text, 0).None? && current == {} && nlp.sentences(text) != [] ==>
      r == {Lower(Strip(nlp.sentences(text)[0]))}
  {
    match FirstTitleMatch(nlp, text, 0)
    case Some(m) => {Lower(Strip(m.1))}
    case None => if current == {} && nlp.sentences(text) != [] then {Lower(Strip(nlp.sentences(text)[0]))} else {}
  }

  /**
   * `_extract_job_title`: the first pattern that matches wins and the method returns; the sentence
   * fallback runs only when none matched. Reading `categories["job_title"]` creates the key in every case.
   */
  method ExtractJobTitle(nlp: Nlp, text: Str, cats: Categories)
    requires cats.Valid() && !HoldsCount(cats.entries, JobTitle)
    modifies cats
    ensures cats.Valid()
    ensures cats.entries == AddTo(old(cats.entries), JobTitle, TitleAdded(nlp, text, SetAt(old(cats.entries), JobTitle)))
  {
    ghost var d0 := cats.entries;
    var i := 0;
    while i < TitlePatterns
      invariant 0 <= i <= TitlePatterns
      invariant forall j :: 0 <= j < i ==> nlp.titleSearch(j, text).None?
      invariant cats.entries == d0
    {
      var m := nlp.titleSearch(i, text);
      if m.Some? {
        ghost var first := FirstTitleMatch(nlp, text, 0);
        assert first.Some? && first.value.0 == i;
        assert TitleAdded(nlp, text, SetAt(d0, JobTitle)) == {Lower(Strip(m.value))};
        cats.Update(JobTitle, {Lower(Strip(m.value))});
        return;
      }
      i := i + 1;
    }
    assert FirstTitleMatch(nlp, text, 0).None?;
    ghost var current := SetAt(d0, JobTitle);
    cats.Update(JobTitle, {});
    assert SetAt(cats.entries, JobTitle) == current + {} == current;
    var sents := nlp.sentences(text);
    if SetAt(cats.entries, JobTitle) == {} && |sents| > 0 {
      var first := Lower(Strip(sents[0]));
      cats.Update(JobTitle, {first});
      AddToTwice(d0, JobTitle, {}, {first});
      assert {} + {first} == {first} == TitleAdded(nlp, text, current);
    } else {
      assert TitleAdded(nlp, text, current) == {};
    }
  }

  // ---------------------------------------------------------------- skills

  /** `[skill.strip().lower() for skill in m.split(',')]`, as a set */
  function PieceSet(m: Str): set<Str> {
    set p | p in SplitOn(m, ',') :: Lower(Strip(p))
  }

  /** What one match of skill pattern `i` adds. */
  function MatchItems(i: nat, m: Str): set<Str> {
    if SkillPatternHasGroup(i) then PieceSet(m) else {Lower(m)}
  }

  /** The union of `f(x)` over the items `xs`, built item by item. */
  function UnionMap(f: Str -> set<Str>, xs: seq<Str>): set<Str> {
    if xs == [] then {} else UnionMap(f, xs[..|xs| - 1]) + f(xs[|xs| - 1])
  }

  /** An element is in the union exactly when it is in `f` of one of the items. */
  lemma {:induction false} UnionMapMembers(f: Str -> set<Str>, xs: seq<Str>)
    ensures forall y :: y in UnionMap(f, xs) <==> exists k :: 0 <= k < |xs| && y in f(xs[k])
  {
    if xs != [] {
      var init := xs[..|xs| - 1];
      UnionMapMembers(f, init);
      assert forall k :: 0 <= k < |init| ==> init[k] == xs[k];
    }
  }

  /** What the matches `ms` of skill pattern `i` add, together. */
  function MatchSkills(i: nat, ms: seq<Str>): set<Str> {
    UnionMap(m => MatchItems(i, m), ms)
  }

  /** An item comes from the matches exactly when it comes from one of them. */
  lemma MatchSkillsMembers(i: nat, ms: seq<Str>)
    ensures forall y :: y in MatchSkills(i, ms) <==> exists k :: 0 <= k < |ms| && y in MatchItems(i, ms[k])
  {
    UnionMapMembers(m => MatchItems(i, m), ms);
  }

  /** What the skill patterns below `n` add, together. */
  function PatternSkills(nlp: Nlp, text: Str, n: nat): set<Str> {
    if n == 0 then {} else PatternSkills(nlp, text, n - 1) + MatchSkills(n - 1, nlp.skillFinditer(n - 1, text))
  }

  /** An item comes from the skill patterns below `n` exactly when it comes from one of them. */
  lemma {:induction false} PatternSkillsMembers(nlp: Nlp, text: Str, n: nat)
    ensures forall y :: y in PatternSkills(nlp, text, n) <==> exists i :: 0 <= i < n && y in MatchSkills(i, nlp.skillFinditer(i, text))
  {
    if n > 0 {
      PatternSkillsMembers(nlp, text, n - 1);
      var last := MatchSkills(n - 1, nlp.skillFinditer(n - 1, text));
      assert PatternSkills(nlp, text, n) == PatternSkills(nlp, text, n - 1) + last;
      forall y | y in PatternSkills(nlp, text, n)
        ensures exists i :: 0 <= i < n && y in MatchSkills(i, nlp.skillFinditer(i, text))
      {
        if y !in last {
          assert y in PatternSkills(nlp, text, n - 1);
        }
      }
      forall y, i | 0 <= i < n && y in MatchSkills(i, nlp.skillFinditer(i, text))
        ensures y in PatternSkills(nlp, text, n)
      {
        if i < n - 1 {
          assert y in PatternSkills(nlp, text, n - 1);
        }
      }
    }
  }

  /** Everything `_extract_skills` adds: the lowercased keywords and the items of every skill match. */
  function SkillsFound(nlp: Nlp, text: Str): set<Str> {
    LowerAll(nlp.keywords(text)) + PatternSkills(nlp, text, SkillPatterns)
  }

  /** The inner loop of `_extract_skills` over the matches `ms` of skill pattern `i`. */
  method AddMatches(i: nat, ms: seq<Str>, cats: Categories)
    requires cats.Valid() && Skills in cats.entries.keys && !HoldsCount(cats.entries, Skills)
    modifies cats
    ensures cats.Valid()
    ensures cats.entries == AddTo(old(cats.entries), Skills, MatchSkills(i, ms))
  {
    ghost var d0 := cats.entries;
    AddNothing(d0, Skills);
    var k := 0;
    while k < |ms|
      invariant 0 <= k <= |ms|
      invariant cats.Valid()
      invariant cats.entries == AddTo(d0, Skills, MatchSkills(i, ms[..k]))
    {
      AddToTwice(d0, Skills, MatchSkills(i, ms[..k]), MatchItems(i, ms[k]));
      if SkillPatternHasGroup(i) {
        cats.Update(Skills, PieceSet(ms[k]));
      } else {
        cats.Update(Skills, {Lower(ms[k])});
      }
      assert ms[..k + 1][..k] == ms[..k];
      k := k + 1;
    }
    assert ms[..k] == ms;
  }

  lemma PatternSkillsStep(nlp: Nlp, text: Str, i: nat, kws: set<Str>)
    ensures kws + PatternSkills(nlp, text, i) + MatchSkills(i, nlp.skillFinditer(i, text)) == kws + PatternSkills(nlp, text, i + 1)
  {
  }

  /** `_extract_skills`: the lowercased keywords, then every match of every skill pattern; it only adds. */
  method ExtractSkills(nlp: Nlp, text: Str, cats: Categories)
    requires cats.Valid() && !HoldsCount(cats.entries, Skills)
    modifies cats
    ensures cats.Valid()
    ensures cats.entries == AddTo(old(cats.entries), Skills, SkillsFound(nlp, text))
  {
    ghost var d0 := cats.entries;
    var kws := LowerAll(nlp.keywords(text));
    cats.Update(Skills, kws);
    assert kws + PatternSkills(nlp, text, 0) == kws;
    var i := 0;
    while i < SkillPatterns
      invariant 0 <= i <= SkillPatterns
      invariant cats.Valid()
      invariant cats.entries == AddTo(d0, Skills, kws + PatternSkills(nlp, text, i))
    {
      var ms := nlp.skillFinditer(i, text);
      AddToTwice(d0, Skills, kws + PatternSkills(nlp, text, i), MatchSkills(i, ms));
      AddMatches(i, ms, cats);
      PatternSkillsStep(nlp, text, i, kws);
      i := i + 1;
    }
  }

  // ---------------------------------------------------------------- entities

  predicate IsOrgLabel(tag: Str) { tag == "ORG" || tag == "PRODUCT" }

  /** The lowercased texts of the `ORG` and `PRODUCT` entities. */
  function OrgTexts(ents: seq<Entity>): set<Str> {
    set e | e in ents && IsOrgLabel(e.tag) :: Lower(e.text)
  }

  /** The lowercased texts of the `GPE` entities. */
  function GpeTexts(ents: seq<Entity>): set<Str> {
    set e | e in ents && e.tag == "GPE" :: Lower(e.text)
  }

  /** Extending the entity list by one entity extends the two text sets by its text when its label fits. */
  lemma EntityTextsSnoc(ents: seq<Entity>, e: Entity)
    ensures OrgTexts(ents + [e]) == OrgTexts(ents) + (if IsOrgLabel(e.tag) then {Lower(e.text)} else {})
    ensures GpeTexts(ents + [e]) == GpeTexts(ents) + (if e.tag == "GPE" then {Lower(e.text)} else {})
  {
    assert forall x :: x in ents + [e] <==> x in ents || x == e;
  }

  /** What one entity does: an organisation or product name goes to skills, a place to location. */
  function AddEntityTo(d: Dict<Category, Entry>, e: Entity): (r: Dict<Category, Entry>)
    requires Valid(d)
    ensures Valid(r)
  {
    if IsOrgLabel(e.tag) then AddTo(d, Skills, {Lower(e.text)})
    else if e.tag == "GPE" then AddTo(d, Location, {Lower(e.text)})
    else d
  }

  /** The entities applied one after the other, in order. */
  function EntitiesInto(d: Dict<Category, Entry>, ents: seq<Entity>): (r: Dict<Category, Entry>)
    requires Valid(d)
    ensures Valid(r)
  {
    if ents == [] then d else AddEntityTo(EntitiesInto(d, ents[..|ents| - 1]), ents[|ents| - 1])
  }

  /** The entities touch no key but skills and location. */
  lemma {:induction false} EntitiesKeepOthers(d: Dict<Category, Entry>, ents: seq<Entity>, k: Category)
    requires Valid(d)
    requires k != Skills && k != Location
    ensures Get(EntitiesInto(d, ents), k) == Get(d, k)
  {
    if ents != [] {
      EntitiesKeepOthers(d, ents[..|ents| - 1], k);
    }
  }

  /** One entity adds its text to skills exactly when it is an organisation or a product. */
  lemma AddEntityOrg(d: Dict<Category, Entry>, e: Entity)
    requires Valid(d)
    ensures var r := AddEntityTo(d, e);
      SetAt(r, Skills) == SetAt(d, Skills) + (if IsOrgLabel(e.tag) then {Lower(e.text)} else {})
  {
  }

  /** One entity adds its text to location exactly when it is a place. */
  lemma AddEntityGpe(d: Dict<Category, Entry>, e: Entity)
    requires Valid(d)
    ensures SetAt(AddEntityTo(d, e), Location) == SetAt(d, Location) + (if e.tag == "GPE" then {Lower(e.text)} else {})
  {
  }

  /** One entity creates the location key only when it is a place. */
  lemma AddEntityGpeKey(d: Dict<Category, Entry>, e: Entity)
    requires Valid(d)
    ensures Location in AddEntityTo(d, e).keys <==> Location in d.keys || e.tag == "GPE"
  {
  }

  /** The entities add exactly their organisation and product names to skills. */
  lemma {:induction false} EntitiesAddOrgs(d: Dict<Category, Entry>, ents: seq<Entity>)
    requires Valid(d)
    ensures SetAt(EntitiesInto(d, ents), Skills) == SetAt(d, Skills) + OrgTexts(ents)
  {
    if ents == [] {
      assert OrgTexts(ents) == {};
    } else {
      var init := ents[..|ents| - 1];
      var e := ents[|ents| - 1];
      assert ents == init + [e];
      EntitiesAddOrgs(d, init);
      EntityTextsSnoc(init, e);
      var p := EntitiesInto(d, init);
      assert EntitiesInto(d, ents) == AddEntityTo(p, e);
      AddEntityOrg(p, e);
    }
  }

  /** The entities add exactly their places to location. */
  lemma {:induction false} EntitiesAddGpes(d: Dict<Category, Entry>, ents: seq<Entity>)
    requires Valid(d)
    ensures SetAt(EntitiesInto(d, ents), Location) == SetAt(d, Location) + GpeTexts(ents)
  {
    if ents == [] {
      assert GpeTexts(ents) == {};
    } else {
      var init := ents[..|ents| - 1];
      var e := ents[|ents| - 1];
      assert ents == init + [e];
      EntitiesAddGpes(d, init);
      EntityTextsSnoc(init, e);
      var p := EntitiesInto(d, init);
      assert EntitiesInto(d, ents) == AddEntityTo(p, e);
      AddEntityGpe(p, e);
    }
  }

  /** The entities create the location key exactly when one of them is a place. */
  lemma {:induction false} EntitiesLocationKey(d: Dict<Category, Entry>, ents: seq<Entity>)
    requires Valid(d)
    ensures Location in EntitiesInto(d, ents).keys <==> Location in d.keys || GpeTexts(ents) != {}
  {
    if ents == [] {
      assert GpeTexts(ents) == {};
    } else {
      var init := ents[..|ents| - 1];
      var e := ents[|ents| - 1];
      assert ents == init + [e];
      EntitiesLocationKey(d, init);
      EntityTextsSnoc(init, e);
      var p := EntitiesInto(d, init);
      assert EntitiesInto(d, ents) == AddEntityTo(p, e);
      AddEntityGpeKey(p, e);
      ghost var added := if e.tag == "GPE" then {Lower(e.text)} else {};
      assert GpeTexts(ents) != {} <==> GpeTexts(init) != {} || added != {};
    }
  }

  /** When skills is already present, the entities can only append location, once, and only for a place. */
  lemma {:induction false} EntitiesKeyOrder(d: Dict<Category, Entry>, ents: seq<Entity>)
    requires Valid(d) && Skills in d.keys
    ensures EntitiesInto(d, ents).keys ==
      if Location !in d.keys && GpeTexts(ents) != {} then d.keys + [Location] else d.keys
  {
    if ents == [] {
      assert GpeTexts(ents) == {};
    } else {
      var init := ents[..|ents| - 1];
      var e := ents[|ents| - 1];
      assert ents == init + [e];
      EntitiesKeyOrder(d, init);
      EntitiesLocationKey(d, init);
      EntityTextsSnoc(init, e);
      var p := EntitiesInto(d, init);
      assert EntitiesInto(d, ents) == AddEntityTo(p, e);
    }
  }

  /** `_extract_entities`: the entities of the text, in order, applied to the categories. */
  method ExtractEntities(nlp: Nlp, text: Str, cats: Categories)
    requires cats.Valid() && !HoldsCount(cats.entries, Skills) && !HoldsCount(cats.entries, Location)
    modifies cats
    ensures cats.Valid()
    ensures cats.entries == EntitiesInto(old(cats.entries), nlp.entities(text))
  {
    ghost var d0 := cats.entries;
    var ents := nlp.entities(text);
    var i := 0;
    while i < |ents|
      invariant 0 <= i <= |ents|
      invariant cats.Valid() && !HoldsCount(cats.entries, Skills) && !HoldsCount(cats.entries, Location)
      invariant cats.entries == EntitiesInto(d0, ents[..i])
    {
      var e := ents[i];
      assert ents[..i + 1][..i] == ents[..i];
      if IsOrgLabel(e.tag) {
        cats.Update(Skills, {Lower(e.text)});
      } else if e.tag == "GPE" {
        cats.Update(Location, {Lower(e.text)});
      }
      i := i + 1;
    }
    assert ents[..i] == ents;
  }

  // ---------------------------------------------------------------- union-all tables

  /** The lowercased `findall` matches of the first `n` patterns of a table, together. */
  function TableMatches(nlp: Nlp, t: Table, text: Str, n: nat): set<Str> {
    if n == 0 then {} else TableMatches(nlp, t, text, n - 1) + LowerAll(nlp.findall(t, n - 1, text))
  }

  /** An item is in the union exactly when it is the lowercase form of a match of one of the patterns. */
  lemma {:induction false} TableMatchesMembers(nlp: Nlp, t: Table, text: Str, n: nat)
    ensures forall y :: y in TableMatches(nlp, t, text, n) <==>
      exists i, x :: 0 <= i < n && x in nlp.findall(t, i, text) && y == Lower(x)
  {
    if n > 0 {
      TableMatchesMembers(nlp, t, text, n - 1);
    }
  }

  /** Everything one union-all extractor adds: the matches of all the patterns of its table. */
  function TableFound(nlp: Nlp, t: Table, text: Str): set<Str> {
    TableMatches(nlp, t, text, TableSize(t))
  }

  /** One union-all extractor: for each pattern of `t`, `categories[key].update(m.lower() for m in findall)`. */
  method ExtractUnionAll(nlp: Nlp, t: Table, key: Category, text: Str, cats: Categories)
    requires cats.Valid() && !HoldsCount(cats.entries, key)
    modifies cats
    ensures cats.Valid()
    ensures cats.entries == AddTo(old(cats.entries), key, TableFound(nlp, t, text))
  {
    ghost var d0 := cats.entries;
    for i := 0 to TableSize(t)
      invariant cats.Valid()
      invariant i == 0 ==> cats.entries == d0
      invariant i > 0 ==> cats.entries == AddTo(d0, key, TableMatches(nlp, t, text, i))
    {
      var found := LowerAll(nlp.findall(t, i, text));
      if i > 0 {
        AddToTwice(d0, key, TableMatches(nlp, t, text, i), found);
      } else {
        assert TableMatches(nlp, t, text, 1) == found;
      }
      cats.Update(key, found);
    }
  }

  /** `_extract_education` */
  method ExtractEducation(nlp: Nlp, text: Str, cats: Categories)
    requires cats.Valid() && !HoldsCount(cats.entries, Education)
    modifies cats
    ensures cats.Valid()
    ensures cats.entries == AddTo(old(cats.entries), Education, TableFound(nlp, EducationTable, text))
  {
    ExtractUnionAll(nlp, EducationTable, Education, text, cats);
  }

  /** `_extract_experience_level` */
  method ExtractExperienceLevel(nlp: Nlp, text: Str, cats: Categories)
    requires cats.Valid() && !HoldsCount(cats.entries, Experience)
    modifies cats
    ensures cats.Valid()
    ensures cats.entries == AddTo(old(cats.entries), Experience, TableFound(nlp, ExperienceTable, text))
  {
    ExtractUnionAll(nlp, ExperienceTable, Experience, text, cats);
  }

  /** `_extract_job_type` */
  method ExtractJobType(nlp: Nlp, text: Str, cats: Categories)
    requires cats.Valid() && !HoldsCount(cats.entries, JobType)
    modifies cats
    ensures cats.Valid()
    ensures cats.entries == AddTo(old(cats.entries), JobType, TableFound(nlp, JobTypeTable, text))
  {
    ExtractUnionAll(nlp, JobTypeTable, JobType, text, cats);
  }

  /** `_extract_industry` */
  method ExtractIndustry(nlp: Nlp, text: Str, cats: Categories)
    requires cats.Valid() && !HoldsCount(cats.entries, Industry)
    modifies cats
    ensures cats.Valid()
    ensures cats.entries == AddTo(old(cats.entries), Industry, TableFound(nlp, IndustryTable, text))
  {
    ExtractUnionAll(nlp, IndustryTable, Industry, text, cats);
  }

  // ---------------------------------------------------------------- years of experience

  /** The largest first-match capture over the years patterns below `n`, 0 when none matches. */
  function MaxYears(nlp: Nlp, text: Str, n: nat): (m: nat)
    ensures forall i :: 0 <= i < n ==> nlp.yearsSearch(i, text).GetOr(0) <= m
    ensures m == 0 || exists i :: 0 <= i < n && nlp.yearsSearch(i, text) == Some(m)
  {
    if n == 0 then 0
    else
      var rest := MaxYears(nlp, text, n - 1);
      var here := nlp.yearsSearch(n - 1, text).GetOr(0);
      if here > rest then here else rest
  }

  /** What `_extract_years_experience` does to a dict: the maximum `m` is written only when it is positive. */
  function PutYears(m: nat, d: Dict<Category, Entry>): (r: Dict<Category, Entry>)
    requires Valid(d)
    ensures Valid(r)
    ensures m > 0 ==> Get(r, YearsOfExperience) == Some(Count(m))
    ensures m > 0 && YearsOfExperience !in d.keys ==> r.keys == d.keys + [YearsOfExperience]
    ensures m == 0 || YearsOfExperience in d.keys ==> r.keys == d.keys
    ensures m == 0 ==> r == d
    ensures forall k :: k != YearsOfExperience ==> Get(r, k) == Get(d, k)
  {
    if m > 0 then Put(d, YearsOfExperience, Count(m)) else d
  }

  /** `_extract_years_experience`: the maximum over all patterns, stored only when it is positive. */
  method ExtractYearsExperience(nlp: Nlp, text: Str, cats: Categories)
    requires cats.Valid()
    modifies cats
    ensures cats.Valid()
    ensures cats.entries == PutYears(MaxYears(nlp, text, YearsPatterns), old(cats.entries))
  {
    var maxYears := 0;
    for i := 0 to YearsPatterns
      invariant maxYears == MaxYears(nlp, text, i)
    {
      var m := nlp.yearsSearch(i, text);
      if m.Some? {
        var years := m.value;
        maxYears := if years > maxYears then years else maxYears;
      }
    }
    if maxYears > 0 {
      cats.SetCount(YearsOfExperience, maxYears);
    }
  }

  // ---------------------------------------------------------------- extract_categories

  /** Everything the extractors find in one text, before it goes into the dict. */
  datatype Found = Found(
    title: set<Str>,
    skills: set<Str>,
    entities: seq<Entity>,
    education: set<Str>,
    experience: set<Str>,
    jobType: set<Str>,
    industry: set<Str>,
    years: nat)

  /** What each extractor finds in `text`; the job title is what it adds to an empty title set. */
  function FoundIn(nlp: Nlp, text: Str): Found {
    Found(
      TitleAdded(nlp, text, {}),
      SkillsFound(nlp, text),
      nlp.entities(text),
      TableFound(nlp, EducationTable, text),
      TableFound(nlp, ExperienceTable, text),
      TableFound(nlp, JobTypeTable, text),
      TableFound(nlp, IndustryTable, text),
      MaxYears(nlp, text, YearsPatterns))
  }

  /** The entities leave every key but skills and location as it was. */
  lemma EntitiesKeepAll(d: Dict<Category, Entry>, ents: seq<Entity>)
    requires Valid(d)
    ensures forall k :: k != Skills && k != Location ==> Get(EntitiesInto(d, ents), k) == Get(d, k)
  {
    forall k | k != Skills && k != Location
      ensures Get(EntitiesInto(d, ents), k) == Get(d, k)
    {
      EntitiesKeepOthers(d, ents, k);
    }
  }

  /** The keys the first three extractors create in a fresh dict: job title, skills, then location when a place was found. */
  function NamedKeys(ents: seq<Entity>): seq<Category> {
    if GpeTexts(ents) != {} then [JobTitle, Skills, Location] else [JobTitle, Skills]
  }

  /** The first three extractors create none of the other keys. */
  lemma NamedKeysOnly(ents: seq<Entity>)
    ensures Education !in NamedKeys(ents) && Experience !in NamedKeys(ents) && JobType !in NamedKeys(ents)
    ensures Industry !in NamedKeys(ents) && YearsOfExperience !in NamedKeys(ents)
  {
  }

  /** The order in which `extract_categories` creates its keys. */
  function CategoryKeys(f: Found): seq<Category> {
    var tables := NamedKeys(f.entities) + [Education, Experience, JobType, Industry];
    if f.years > 0 then tables + [YearsOfExperience] else tables
  }

  /** What `extract_categories` stores under each category, `None` for a category it does not create. */
  function CategoryEntry(f: Found, c: Category): Option<Entry> {
    match c
    case JobTitle => Some(ItemSet(f.title))
    case Skills => Some(ItemSet(f.skills + OrgTexts(f.entities)))
    case Location => if GpeTexts(f.entities) != {} then Some(ItemSet(GpeTexts(f.entities))) else None
    case Education => Some(ItemSet(f.education))
    case Experience => Some(ItemSet(f.experience))
    case JobType => Some(ItemSet(f.jobType))
    case Industry => Some(ItemSet(f.industry))
    case YearsOfExperience => if f.years > 0 then Some(Count(f.years)) else None
  }

  /** A fresh dict after the job title and skills steps holds exactly those two keys, in that order. */
  lemma TitleThenSkills(title: set<Str>, skills: set<Str>)
    ensures var d := AddTo(AddTo(Empty(), JobTitle, title), Skills, skills);
      && Valid(d) && d.keys == [JobTitle, Skills]
      && Get(d, JobTitle) == Some(ItemSet(title)) && Get(d, Skills) == Some(ItemSet(skills))
      && forall k :: k != JobTitle && k != Skills ==> Get(d, k) == None
  {
    var d0: Dict<Category, Entry> := Empty();
    var d1 := AddTo(d0, JobTitle, title);
    assert d1.keys == [JobTitle];
    assert [JobTitle] + [Skills] == [JobTitle, Skills];
  }

  /** The entity step on a dict holding just the job title and the skills. */
  lemma EntitiesAfterTitleAndSkills(d: Dict<Category, Entry>, ents: seq<Entity>, title: set<Str>, skills: set<Str>)
    requires Valid(d) && d.keys == [JobTitle, Skills]
    requires Get(d, JobTitle) == Some(ItemSet(title)) && Get(d, Skills) == Some(ItemSet(skills))
    requires forall k :: k != JobTitle && k != Skills ==> Get(d, k) == None
    ensures var r := EntitiesInto(d, ents);
      && r.keys == NamedKeys(ents)
      && Get(r, JobTitle) == Some(ItemSet(title))
      && Get(r, Skills) == Some(ItemSet(skills + OrgTexts(ents)))
      && Get(r, Location) == (if GpeTexts(ents) != {} then Some(ItemSet(GpeTexts(ents))) else None)
      && forall k :: k != JobTitle && k != Skills && k != Location ==> Get(r, k) == None
  {
    EntitiesKeepAll(d, ents);
    EntitiesAddOrgs(d, ents);
    EntitiesAddGpes(d, ents);
    EntitiesLocationKey(d, ents);
    EntitiesKeyOrder(d, ents);
    assert {} + GpeTexts(ents) == GpeTexts(ents);
    assert [JobTitle, Skills] + [Location] == [JobTitle, Skills, Location];
  }

  /** The first three steps of `extract_categories` on its fresh dict: job title, skills, entities. */
  method ExtractNamed(nlp: Nlp, text: Str, cats: Categories)
    requires cats.Valid() && cats.entries == Empty()
    modifies cats
    ensures cats.Valid()
    ensures cats.entries.keys == NamedKeys(nlp.entities(text))
    ensures Get(cats.entries, JobTitle) == Some(ItemSet(TitleAdded(nlp, text, {})))
    ensures Get(cats.entries, Skills) == Some(ItemSet(SkillsFound(nlp, text) + OrgTexts(nlp.entities(text))))
    ensures Get(cats.entries, Location) ==
      if GpeTexts(nlp.entities(text)) != {} then Some(ItemSet(GpeTexts(nlp.entities(text)))) else None
    ensures forall k :: k != JobTitle && k != Skills && k != Location ==> Get(cats.entries, k) == None
  {
    ghost var title := TitleAdded(nlp, text, {});
    ghost var skills := SkillsFound(nlp, text);
    assert SetAt(cats.entries, JobTitle) == {};
    ExtractJobTitle(nlp, text, cats);
    ExtractSkills(nlp, text, cats);
    TitleThenSkills(title, skills);
    EntitiesAfterTitleAndSkills(cats.entries, nlp.entities(text), title, skills);
    ExtractEntities(nlp, text, cats);
  }

  lemma AppendFour(a: seq<Category>, w: Category, x: Category, y: Category, z: Category)
    ensures a + [w] + [x] + [y] + [z] == a + [w, x, y, z]
  {
  }

  /** Keys different from the one appended stay missing. */
  lemma StillFresh(a: seq<Category>, added: Category, x: Category, y: Category, z: Category)
    requires x !in a && y !in a && z !in a
    requires x != added && y != added && z != added
    ensures x !in a + [added] && y !in a + [added] && z !in a + [added]
  {
  }

  /** The four union-all steps of `extract_categories`, each creating its key at the end of the order. */
  method ExtractTables(nlp: Nlp, text: Str, cats: Categories)
    requires cats.Valid()
    requires Education !in cats.entries.keys && Experience !in cats.entries.keys
    requires JobType !in cats.entries.keys && Industry !in cats.entries.keys
    modifies cats
    ensures cats.Valid()
    ensures cats.entries.keys == old(cats.entries.keys) + [Education, Experience, JobType, Industry]
    ensures Get(cats.entries, Education) == Some(ItemSet(TableFound(nlp, EducationTable, text)))
    ensures Get(cats.entries, Experience) == Some(ItemSet(TableFound(nlp, ExperienceTable, text)))
    ensures Get(cats.entries, JobType) == Some(ItemSet(TableFound(nlp, JobTypeTable, text)))
    ensures Get(cats.entries, Industry) == Some(ItemSet(TableFound(nlp, IndustryTable, text)))
    ensures forall k :: k != Education && k != Experience && k != JobType && k != Industry ==>
      Get(cats.entries, k) == Get(old(cats.entries), k)
  {
    ghost var d0 := cats.entries;
    ExtractEducation(nlp, text, cats);
    StillFresh(d0.keys, Education, Experience, JobType, Industry);
    ExtractExperienceLevel(nlp, text, cats);
    StillFresh(d0.keys + [Education], Experience, JobType, Industry, Industry);
    ExtractJobType(nlp, text, cats);
    StillFresh(d0.keys + [Education] + [Experience], JobType, Industry, Industry, Industry);
    ExtractIndustry(nlp, text, cats);
    AppendFour(d0.keys, Education, Experience, JobType, Industry);
  }

  lemma TablesOmitYears(a: seq<Category>)
    requires YearsOfExperience !in a
    ensures YearsOfExperience !in a + [Education, Experience, JobType, Industry]
  {
  }

  /** The keys after the named step, the union-all step and the years step come in the order `CategoryKeys` gives. */
  lemma AssembledKeys(f: Found, named: Dict<Category, Entry>, tables: Dict<Category, Entry>, r: Dict<Category, Entry>)
    requires named.keys == NamedKeys(f.entities)
    requires Valid(tables) && tables.keys == named.keys + [Education, Experience, JobType, Industry]
    requires r == PutYears(f.years, tables)
    ensures r.keys == CategoryKeys(f)
  {
    NamedKeysOnly(f.entities);
    TablesOmitYears(named.keys);
  }

  /** After the three steps each category holds what `f` describes. */
  lemma AssembledEntry(f: Found, named: Dict<Category, Entry>, tables: Dict<Category, Entry>, r: Dict<Category, Entry>, k: Category)
    requires Valid(named)
    requires Get(named, JobTitle) == CategoryEntry(f, JobTitle)
    requires Get(named, Skills) == CategoryEntry(f, Skills)
    requires Get(named, Location) == CategoryEntry(f, Location)
    requires forall k :: k != JobTitle && k != Skills && k != Location ==> Get(named, k) == None
    requires Valid(tables)
    requires Get(tables, Education) == Some(ItemSet(f.education))
    requires Get(tables, Experience) == Some(ItemSet(f.experience))
    requires Get(tables, JobType) == Some(ItemSet(f.jobType))
    requires Get(tables, Industry) == Some(ItemSet(f.industry))
    requires forall k :: k != Education && k != Experience && k != JobType && k != Industry ==> Get(tables, k) == Get(named, k)
    requires r == PutYears(f.years, tables)
    ensures Get(r, k) == CategoryEntry(f, k)
  {
    if k != YearsOfExperience {
      assert Get(r, k) == Get(tables, k);
    }
  }

  /**
   * `extract_categories`: every extractor, in order, on a fresh `defaultdict(set)`. The keys come in the
   * order job title, skills, [location], education, experience, job type, industry, [years], and each
   * holds what its extractor found.
   */
  method ExtractCategories(nlp: Nlp, text: Str) returns (r: Dict<Category, Entry>)
    ensures Valid(r)
    ensures r.keys == CategoryKeys(FoundIn(nlp, text))
    ensures forall k :: Get(r, k) == CategoryEntry(FoundIn(nlp, text), k)
  {
    ghost var f := FoundIn(nlp, text);
    var cats := new Categories();
    ExtractNamed(nlp, text, cats);
    ghost var named := cats.entries;
    NamedKeysOnly(nlp.entities(text));
    ExtractTables(nlp, text, cats);
    ghost var tables := cats.entries;
    ExtractYearsExperience(nlp, text, cats);
    r := cats.entries;
    AssembledKeys(f, named, tables, r);
    forall k
      ensures Get(r, k) == CategoryEntry(f, k)
    {
      AssembledEntry(f, named, tables, r, k);
    }
  }

  /**
   * `extract_specific_category`: the entry of the named category, or the empty set when the name is not
   * one of the eight keys or the category was not created.
   */
  method ExtractSpecificCategory(nlp: Nlp, text: Str, category: Str) returns (r: Entry)
    ensures CategoryNamed(category).None? ==> r == ItemSet({})
    ensures CategoryNamed(category).Some? ==> r == CategoryEntry(FoundIn(nlp, text), CategoryNamed(category).value).GetOr(ItemSet({}))
    ensures CategoryNamed(category).Some? && CategoryNamed(category).value !in CategoryKeys(FoundIn(nlp, text)) ==> r == ItemSet({})
  {
    var categories := ExtractCategories(nlp, text);
    match CategoryNamed(category)
    case None =>
      r := ItemSet({});
    case Some(c) =>
      r := GetOr(categories, c, ItemSet({}));
  }

  // ---------------------------------------------------------------- extract_info

  /** `item in extracted_keywords or re.search(r'\b' + re.escape(item) + r'\b', text, re.IGNORECASE)` */
  predicate Selected(nlp: Nlp, text: Str, keywords: set<Str>, item: Str) {
    item in keywords || nlp.wholeWord(item, text)
  }

  /** The lowercase forms of the selected items of `items`, in the order of `items`. */
  function PickedList(nlp: Nlp, text: Str, keywords: set<Str>, items: seq<Str>): (r: seq<Str>)
    ensures |r| <= |items|
  {
    if items == [] then []
    else
      var init := PickedList(nlp, text, keywords, items[..|items| - 1]);
      var x := items[|items| - 1];
      if Selected(nlp, text, keywords, x) then init + [Lower(x)] else init
  }

  /** The schema items of a set that `extract_info` keeps. */
  function Picked(nlp: Nlp, text: Str, keywords: set<Str>, items: set<Str>): set<Str> {
    set x | x in items && Selected(nlp, text, keywords, x)
  }

  /** An entry of the list is the lowercase form of a selected item, and every selected item has one. */
  lemma {:induction false} PickedListMembers(nlp: Nlp, text: Str, keywords: set<Str>, items: seq<Str>)
    ensures forall y :: y in PickedList(nlp, text, keywords, items) <==>
      exists x :: x in items && Selected(nlp, text, keywords, x) && y == Lower(x)
  {
    if items != [] {
      var init := items[..|items| - 1];
      PickedListMembers(nlp, text, keywords, init);
      assert items == init + [items[|items| - 1]];
    }
  }

  lemma NoDupInit(items: seq<Str>)
    requires items != [] && NoDup(items)
    ensures NoDup(items[..|items| - 1]) && items[|items| - 1] !in items[..|items| - 1]
    ensures ToSet(items) == ToSet(items[..|items| - 1]) + {items[|items| - 1]}
  {
    assert items == items[..|items| - 1] + [items[|items| - 1]];
  }

  /** Adding a new item to the schema set adds it to the kept items exactly when it is selected. */
  lemma PickedAdd(nlp: Nlp, text: Str, keywords: set<Str>, s: set<Str>, x: Str)
    requires x !in s
    ensures x !in Picked(nlp, text, keywords, s)
    ensures Picked(nlp, text, keywords, s + {x}) ==
      if Selected(nlp, text, keywords, x) then Picked(nlp, text, keywords, s) + {x} else Picked(nlp, text, keywords, s)
  {
  }

  /** Over a list without repetitions, the list has one entry per selected item. */
  lemma {:induction false} PickedListSize(nlp: Nlp, text: Str, keywords: set<Str>, items: seq<Str>)
    requires NoDup(items)
    ensures |PickedList(nlp, text, keywords, items)| == |Picked(nlp, text, keywords, ToSet(items))|
  {
    if items != [] {
      var init := items[..|items| - 1];
      var x := items[|items| - 1];
      NoDupInit(items);
      PickedListSize(nlp, text, keywords, init);
      PickedAdd(nlp, text, keywords, ToSet(init), x);
    }
  }

  /**
   * What `extract_info` stores for a category: for a set, the selected items in iteration order,
   * lowercased; for the years count, the first match of its pattern or 0; for any other count, `[]`.
   */
  function InfoValue(nlp: Nlp, order: SetOrder, text: Str, k: Category, e: Entry): (v: Value)
    ensures v.Years? <==> e.Count? && k == YearsOfExperience
  {
    match e
    case ItemSet(items) => Items(PickedList(nlp, text, LowerAll(nlp.keywords(text)), order(items)))
    case Count(_) => if k == YearsOfExperience then Years(nlp.infoYearsSearch(text).GetOr(0)) else Items([])
  }

  /**
   * For a set, when the iteration order lists each member once, the info list holds one entry per
   * selected schema item and its entries are exactly the lowercase forms of the selected items.
   */
  lemma InfoItems(nlp: Nlp, order: SetOrder, text: Str, k: Category, items: set<Str>)
    requires Enumerates(order)
    ensures var v := InfoValue(nlp, order, text, k, ItemSet(items));
      var keywords := LowerAll(nlp.keywords(text));
      && |v.list| == |Picked(nlp, text, keywords, items)|
      && forall y :: y in v.list <==> exists x :: x in items && Selected(nlp, text, keywords, x) && y == Lower(x)
  {
    var keywords := LowerAll(nlp.keywords(text));
    var xs := order(items);
    assert NoDup(xs) && ToSet(xs) == items;
    PickedListSize(nlp, text, keywords, xs);
    PickedListMembers(nlp, text, keywords, xs);
  }

  /** The inner loop of `extract_info`: the selected items, in iteration order, lowercased. */
  method PickItems(nlp: Nlp, text: Str, keywords: set<Str>, xs: seq<Str>) returns (list: seq<Str>)
    ensures list == PickedList(nlp, text, keywords, xs)
  {
    list := [];
    for j := 0 to |xs|
      invariant list == PickedList(nlp, text, keywords, xs[..j])
    {
      assert xs[..j + 1][..j] == xs[..j];
      if xs[j] in keywords || nlp.wholeWord(xs[j], text) {
        list := list + [Lower(xs[j])];
      }
    }
    assert xs[..|xs|] == xs;
  }

  /**
   * `extract_info`: one key per key of `categories`, in the same order, each holding what
   * `InfoValue` describes.
   */
  method ExtractInfo(nlp: Nlp, order: SetOrder, text: Str, categories: Dict<Category, Entry>) returns (info: Dict<Category, Value>)
    requires Valid(categories)
    ensures Valid(info) && info.keys == categories.keys
    ensures forall k :: k in categories.keys ==> Get(info, k) == Some(InfoValue(nlp, order, text, k, categories.values[k]))
  {
    var keys := categories.keys;
    info := Dict(keys, map k | k in keys :: Items([]));
    var keywords := LowerAll(nlp.keywords(text));
    for i := 0 to |keys|
      invariant Valid(info) && info.keys == keys
      invariant forall k :: k in keys ==>
        Get(info, k) == Some(if k in keys[..i] then InfoValue(nlp, order, text, k, categories.values[k]) else Items([]))
    {
      var k := keys[i];
      assert forall c :: c in keys[..i + 1] <==> c in keys[..i] || c == k;
      match categories.values[k]
      case ItemSet(items) =>
        var list := PickItems(nlp, text, keywords, order(items));
        info := Put(info, k, Items(list));
      case Count(_) =>
        if k == YearsOfExperience {
          var m := nlp.infoYearsSearch(text);
          info := Put(info, k, Years(if m.Some? then m.value else 0));
        }
    }
    assert keys[..|keys|] == keys;
  }

  // ---------------------------------------------------------------- preprocess_text

  /** The characters `re.sub(r'[^a-zA-Z0-9\s\.\+#/\-]', '', text)` keeps. */
  predicate Allowed(c: char) {
    IsUpper(c) || IsLowerLetter(c) || IsDigit(c) || IsSpace(c) || c == '.' || c == '+' || c == '#' || c == '/' || c == '-'
  }

  /** `s` with every character that is not `Allowed` removed. */
  function KeepAllowed(s: Str): (r: Str)
    ensures |r| <= |s|
    ensures forall c :: c in r ==> c in s && Allowed(c)
    ensures (forall c :: c in s ==> Allowed(c)) ==> r == s
  {
    if s == [] then []
    else
      var rest := KeepAllowed(s[1..]);
      assert forall c :: c in s[1..] ==> c in s;
      if Allowed(s[0]) then [s[0]] + rest else rest
  }

  /** `preprocess_text`: whitespace runs become one space, the text is lowercased, then filtered. */
  function PreprocessText(text: Str): Str {
    KeepAllowed(Lower(Join(Split(text), " ")))
  }

  /**
   * The result holds only lowercase letters, digits, `. + # / -` and the plain space, which is its only
   * whitespace character, and it is no longer than the input.
   */
  lemma PreprocessAlphabet(text: Str)
    ensures forall c :: c in PreprocessText(text) ==>
      IsLowerLetter(c) || IsDigit(c) || c == ' ' || c == '.' || c == '+' || c == '#' || c == '/' || c == '-'
    ensures |PreprocessText(text)| <= |text|
  {
    var joined := Join(Split(text), " ");
    var plain := (c: char) => !IsSpace(c) || c == ' ';
    JoinPreserves(Split(text), " ", plain);
    var low := Lower(joined);
    assert forall i :: 0 <= i < |low| ==> !IsUpper(low[i]) && plain(low[i]);
    JoinSplitLength(text);
  }

  /** Text that is already single-spaced, lowercase words of allowed characters comes back unchanged. */
  lemma PreprocessClean(ws: seq<Str>)
    requires forall k :: 0 <= k < |ws| ==> ws[k] != [] && NoSpace(ws[k])
    requires forall k, i :: 0 <= k < |ws| && 0 <= i < |ws[k]| ==> Allowed(ws[k][i]) && !IsUpper(ws[k][i])
    ensures PreprocessText(Join(ws, " ")) == Join(ws, " ")
  {
    var text := Join(ws, " ");
    SplitJoin(ws);
    JoinPreserves(ws, " ", (c: char) => Allowed(c) && !IsUpper(c));
    assert Lower(text) == text;
  }

  // ---------------------------------------------------------------- merge_categories

  /** The dict as a map from its keys to their values. */
  function AsMap<K(==,!new), V>(d: Dict<K, V>): (m: map<K, V>)
    requires Valid(d)
    ensures forall k :: k in m <==> k in d.keys
    ensures forall k :: k in m ==> Get(d, k) == Some(m[k])
  {
    map k | k in d.keys :: d.values[k]
  }

  /**
   * `merge_categories`: the keys of either dict, each with the union of its two sets, a key missing
   * from one dict counting as the empty set there. The key order of the result is the iteration order
   * of a set of keys, so the result is given as a map.
   */
  function MergeCategories<K(==,!new)>(c1: Dict<K, set<Str>>, c2: Dict<K, set<Str>>): (m: map<K, set<Str>>)
    requires Valid(c1) && Valid(c2)
    ensures forall k :: k in m <==> k in c1.keys || k in c2.keys
    ensures forall k :: k in m ==> GetOr(c1, k, {}) <= m[k] && GetOr(c2, k, {}) <= m[k]
    ensures forall k, x :: k in m && x in m[k] ==> x in GetOr(c1, k, {}) || x in GetOr(c2, k, {})
  {
    map k | k in c1.keys + c2.keys :: GetOr(c1, k, {}) + GetOr(c2, k, {})
  }

  /** Merging is commutative. */
  lemma MergeCommutes<K(!new)>(c1: Dict<K, set<Str>>, c2: Dict<K, set<Str>>)
    requires Valid(c1) && Valid(c2)
    ensures MergeCategories(c1, c2) == MergeCategories(c2, c1)
  {
    var a := MergeCategories(c1, c2);
    var b := MergeCategories(c2, c1);
    assert forall k :: k in a ==> a[k] == b[k];
  }

  /** Merging a dict with itself, or with an empty dict, gives back its contents. */
  lemma MergeIdentity<K(!new)>(c: Dict<K, set<Str>>)
    requires Valid(c)
    ensures MergeCategories(c, c) == AsMap(c)
    ensures MergeCategories(c, Empty()) == AsMap(c)
  {
    var m := AsMap(c);
    assert forall k :: k in m ==> MergeCategories(c, c)[k] == m[k];
    assert forall k :: k in m ==> MergeCategories(c, Empty())[k] == m[k];
  }

  /** The merged value of one key. */
  lemma MergeAt<K(!new)>(c1: Dict<K, set<Str>>, c2: Dict<K, set<Str>>, k: K)
    requires Valid(c1) && Valid(c2)
    ensures k in MergeCategories(c1, c2) ==> MergeCategories(c1, c2)[k] == GetOr(c1, k, {}) + GetOr(c2, k, {})
  {
  }

  /** A dict holding the merge of `a` and `b` answers every lookup with the union of the two lookups. */
  lemma MergedGet<K(!new)>(a: Dict<K, set<Str>>, b: Dict<K, set<Str>>, ab: Dict<K, set<Str>>, k: K)
    requires Valid(a) && Valid(b) && Valid(ab)
    requires AsMap(ab) == MergeCategories(a, b)
    ensures k in ab.keys <==> k in a.keys || k in b.keys
    ensures GetOr(ab, k, {}) == GetOr(a, k, {}) + GetOr(b, k, {})
  {
    var m := AsMap(ab);
    if k in m {
      assert m[k] == MergeCategories(a, b)[k];
    }
  }

  /** One key of the two ways of merging three dicts. */
  lemma MergeAssociatesAt<K(!new)>(a: Dict<K, set<Str>>, b: Dict<K, set<Str>>, c: Dict<K, set<Str>>, ab: Dict<K, set<Str>>, bc: Dict<K, set<Str>>, k: K)
    requires Valid(a) && Valid(b) && Valid(c) && Valid(ab) && Valid(bc)
    requires AsMap(ab) == MergeCategories(a, b) && AsMap(bc) == MergeCategories(b, c)
    ensures k in MergeCategories(ab, c) <==> k in MergeCategories(a, bc)
    ensures k in MergeCategories(ab, c) ==> MergeCategories(ab, c)[k] == MergeCategories(a, bc)[k]
  {
    MergedGet(a, b, ab, k);
    MergedGet(b, c, bc, k);
    MergeAt(ab, c, k);
    MergeAt(a, bc, k);
  }

  /** Merging is associative, whatever key order the intermediate dicts have. */
  lemma MergeAssociates<K(!new)>(a: Dict<K, set<Str>>, b: Dict<K, set<Str>>, c: Dict<K, set<Str>>, ab: Dict<K, set<Str>>, bc: Dict<K, set<Str>>)
    requires Valid(a) && Valid(b) && Valid(c) && Valid(ab) && Valid(bc)
    requires AsMap(ab) == MergeCategories(a, b) && AsMap(bc) == MergeCategories(b, c)
    ensures MergeCategories(ab, c) == MergeCategories(a, bc)
  {
    var l := MergeCategories(ab, c);
    var r := MergeCategories(a, bc);
    forall k
      ensures (k in l <==> k in r) && (k in l ==> l[k] == r[k])
    {
      MergeAssociatesAt(a, b, c, ab, bc, k);
    }
    assert l.Keys == r.Keys;
  }
}
