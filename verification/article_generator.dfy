/** The article catalogue generator: every (category, title, keywords)
    entry becomes a full article with a sequential id, a type and a read
    time that cycle with the entry's position in its category, the cover
    image at that position, and content built from fixed templates. The
    wording of the prose paragraphs is not modelled; which template each
    paragraph uses and what is substituted into it is. */
module ArticleGenerator {
  import opened Wrappers
  import opened Text
  import Sequences

  /** One entry of a category's list. */
  datatype Entry = Entry(title: string, keywords: seq<string>)

  /** A category of the catalogue with its entries, in declaration order. */
  datatype Category = Category(name: string, entries: seq<Entry>)

  /** The topics of the eight body sections; each has its own paragraph
      template. */
  datatype Topic =
    | Fundamentals | GettingStarted | AdvancedStrategies | BestPractices
    | CommonMistakes | Applications | Optimization | FutureTrends

  /** The paragraph templates. */
  datatype Template = Intro | SectionText(topic: Topic) | Conclusion | Description | MetaDescription

  /** A prose paragraph: the template it is written from and the values
      substituted into it, in order. */
  datatype Prose = Filled(template: Template, args: seq<string>)

  datatype Section = Section(heading: string, content: Prose)

  datatype Content = Content(intro: Prose, agenda: seq<string>, body: seq<Section>, conclusion: Prose)

  datatype Kind = Article | Ebook | Guide

  /** The `FullArticle` record (the date is not modelled). */
  datatype FullArticle = FullArticle(
    id: string,
    title: string,
    description: Prose,
    category: string,
    kind: Kind,
    thumbnail: Option<string>,
    readTime: string,
    keywords: seq<string>,
    metaDescription: Prose,
    content: Content)

  /** `keywords[i]`: `None` stands for `undefined`. */
  function Keyword(keywords: seq<string>, i: nat): (k: Option<string>)
    ensures k.Some? <==> i < |keywords|
    ensures k.Some? ==> k.value == keywords[i]
  {
    if i < |keywords| then Some(keywords[i]) else None
  }

  /** A value as a template literal writes it: `undefined` when absent. */
  function Show(v: Option<string>): string {
    v.GetOr("undefined")
  }

  /** The keyword phrase of every template: `keywords[0]`. */
  function Phrase(keywords: seq<string>): string {
    Show(Keyword(keywords, 0))
  }

  /** `keywords[1] || keywords[0]`: the second keyword unless it is absent
      or empty. */
  function Focus(keywords: seq<string>): (f: string)
    ensures |keywords| >= 2 && keywords[1] != "" ==> f == keywords[1]
    ensures |keywords| < 2 || keywords[1] == "" ==> f == Phrase(keywords)
  {
    match Keyword(keywords, 1)
    case Some(k) => if k != "" then k else Phrase(keywords)
    case None => Phrase(keywords)
  }

  /** A heading written around the keyword phrase: the text before it and
      the text after it. */
  type Frame = (string, string)

  function Around(f: Frame, k: string): string {
    f.0 + k + f.1
  }

  // The agenda's wording, in order; the first four entries are written
  // around the keyword phrase.
  const AgendaFundamentals: Frame := ("Understanding ", ": Fundamentals and Core Concepts")
  const AgendaGettingStarted: Frame := ("Getting Started: Essential ", " Techniques and Setup")
  const AgendaAdvanced: Frame := ("Advanced Strategies for ", " Mastery")
  const AgendaBestPractices: Frame := ("Best Practices and Industry Standards for ", "")
  const AgendaMistakes := "Common Mistakes and How to Avoid Them"
  const AgendaApplications := "Real-World Applications and Use Cases"
  const AgendaOptimization := "Optimization Techniques for Maximum Results"
  const AgendaFuture := "Future Trends and Emerging Developments"

  // The body's headings, written out a second time in the script.
  const BodyFundamentals: Frame := ("Understanding ", ": Fundamentals and Core Concepts")
  const BodyGettingStarted: Frame := ("Getting Started: Essential ", " Techniques and Setup")
  const BodyAdvanced: Frame := ("Advanced Strategies for ", " Mastery")
  const BodyBestPractices: Frame := ("Best Practices and Industry Standards for ", "")
  const BodyMistakes := "Common Mistakes and How to Avoid Them"
  const BodyApplications := "Real-World Applications and Use Cases"
  const BodyOptimization := "Optimization Techniques for Maximum Results"
  const BodyFuture := "Future Trends and Emerging Developments"

  /** The table of contents, written about the keyword phrase `k`. */
  function Agenda(k: string): seq<string> {
    [ Around(AgendaFundamentals, k), Around(AgendaGettingStarted, k),
      Around(AgendaAdvanced, k), Around(AgendaBestPractices, k),
      AgendaMistakes, AgendaApplications, AgendaOptimization, AgendaFuture ]
  }

  /** The topics of the body sections, in order. */
  const Topics: seq<Topic> := [
    Fundamentals, GettingStarted, AdvancedStrategies, BestPractices,
    CommonMistakes, Applications, Optimization, FutureTrends ]

  /** The body sections: each heading comes from the body's own copy of the
      wording, and each paragraph is written about `k`. */
  function Body(k: string): seq<Section> {
    [ Section(Around(BodyFundamentals, k), Filled(SectionText(Fundamentals), [k])),
      Section(Around(BodyGettingStarted, k), Filled(SectionText(GettingStarted), [k])),
      Section(Around(BodyAdvanced, k), Filled(SectionText(AdvancedStrategies), [k])),
      Section(Around(BodyBestPractices, k), Filled(SectionText(BestPractices), [k])),
      Section(BodyMistakes, Filled(SectionText(CommonMistakes), [k])),
      Section(BodyApplications, Filled(SectionText(Applications), [k])),
      Section(BodyOptimization, Filled(SectionText(Optimization), [k])),
      Section(BodyFuture, Filled(SectionText(FutureTrends), [k])) ]
  }

  /** Whatever the keyword phrase, the body's headings are the agenda's
      entries in the same order, and section i is written from the
      template of topic i. */
  lemma HeadingsAgree(k: string)
    ensures |Agenda(k)| == 8 && |Body(k)| == 8
    ensures forall i :: 0 <= i < 8 ==> Body(k)[i].heading == Agenda(k)[i]
    ensures forall i :: 0 <= i < 8 ==> Body(k)[i].content == Filled(SectionText(Topics[i]), [k])
  {
  }

  /** `generateArticleContent` (its `index` argument is unused): eight
      agenda entries, eight sections headed by them in the same order, and
      every paragraph written about `keywords[0]`; the introduction also
      names the title, the conclusion the title and the category. */
  function GenerateContent(category: string, title: string, keywords: seq<string>): (c: Content)
    ensures |c.agenda| == 8 && |c.body| == 8
    ensures forall i :: 0 <= i < 8 ==> c.body[i].heading == c.agenda[i]
    ensures forall i :: 0 <= i < 8 ==> c.body[i].content == Filled(SectionText(Topics[i]), [Phrase(keywords)])
    ensures forall i :: 0 <= i < 4 ==> Contains(c.agenda[i], Phrase(keywords))
    ensures c.intro == Filled(Intro, [title, Phrase(keywords)])
    ensures c.conclusion == Filled(Conclusion, [title, Phrase(keywords), category])
  {
    var k := Phrase(keywords);
    HeadingsAgree(k);
    AgendaNamesPhrase(k);
    Content(Filled(Intro, [title, k]), Agenda(k), Body(k), Filled(Conclusion, [title, k, category]))
  }

  /** A heading written around `k` contains `k`. */
  lemma AroundContains(f: Frame, k: string)
    ensures Contains(Around(f, k), k)
  {
    assert Around(f, k)[|f.0|..|f.0| + |k|] == k;
    assert OccursAt(k, Around(f, k), |f.0|);
  }

  /** A heading written around `k` starts as its text before `k` does. */
  lemma AroundStart(f: Frame, k: string)
    requires f.0 != ""
    ensures |Around(f, k)| > 0 && Around(f, k)[0] == f.0[0]
  {
    assert Around(f, k) == f.0 + (k + f.1);
  }

  /** The first four agenda entries name the keyword phrase. */
  lemma AgendaNamesPhrase(k: string)
    ensures forall i :: 0 <= i < 4 ==> Contains(Agenda(k)[i], k)
  {
    AroundContains(AgendaFundamentals, k);
    AroundContains(AgendaGettingStarted, k);
    AroundContains(AgendaAdvanced, k);
    AroundContains(AgendaBestPractices, k);
  }

  /** Whatever the keyword phrase, the eight agenda entries are pairwise
      distinct: each starts with a different letter. */
  lemma AgendaDistinct(k: string)
    ensures forall i, j :: 0 <= i < j < |Agenda(k)| ==> Agenda(k)[i] != Agenda(k)[j]
  {
    var a := Agenda(k);
    var initials := "UGABCROF";
    AroundStart(AgendaFundamentals, k);
    AroundStart(AgendaGettingStarted, k);
    AroundStart(AgendaAdvanced, k);
    AroundStart(AgendaBestPractices, k);
    forall i | 0 <= i < 8
      ensures |a[i]| > 0 && a[i][0] == initials[i]
    {
    }
    forall i, j | 0 <= i < j < |a|
      ensures a[i] != a[j]
    {
      assert a[i][0] == initials[i] && a[j][0] == initials[j];
    }
  }

  /** `article-` and the counter padded to three digits. */
  function ArticleId(counter: nat): string {
    "article-" + PadStart(NatToString(counter), 3, '0')
  }

  /** Different counters give different ids. */
  lemma ArticleIdInjective(m: nat, n: nat)
    requires ArticleId(m) == ArticleId(n)
    ensures m == n
  {
    var prefix := |"article-"|;
    assert ArticleId(m)[prefix..] == PadStart(NatToString(m), 3, '0');
    assert ArticleId(n)[prefix..] == PadStart(NatToString(n), 3, '0');
    ParsePadded(m, 3);
    ParsePadded(n, 3);
  }

  lemma IdsDiffer(m: nat, n: nat)
    requires m != n
    ensures ArticleId(m) != ArticleId(n)
  {
    if ArticleId(m) == ArticleId(n) {
      ArticleIdInjective(m, n);
    }
  }

  /** The counters 1 to 999 give ids of exactly eleven characters. */
  lemma ArticleIdWidth(counter: nat)
    requires 1 <= counter < 1000
    ensures |ArticleId(counter)| == 11
  {
    NatToStringLength(counter);
  }

  function KindAt(index: nat): (kind: Kind) {
    if index % 3 == 0 then Guide else if index % 3 == 1 then Article else Ebook
  }

  function ReadTime(index: nat): string {
    NatToString(12 + index % 8) + " min read"
  }

  /** The type cycles Guide, Article, Ebook. */
  lemma KindCycle(index: nat)
    ensures KindAt(index + 3) == KindAt(index)
    ensures KindAt(index) != KindAt(index + 1) && KindAt(index + 1) != KindAt(index + 2)
      && KindAt(index) != KindAt(index + 2)
  {
  }

  /** The read time is a two-digit number of minutes from 12 to 19, and it
      repeats every eight entries. */
  lemma ReadTimeMinutes(index: nat)
    ensures |ReadTime(index)| == 11 && ReadTime(index)[2..] == " min read"
    ensures 12 <= ParseNat(ReadTime(index)[..2]) <= 19
    ensures ParseNat(ReadTime(index)[..2]) == 12 + index % 8
    ensures ReadTime(index + 8) == ReadTime(index)
  {
    var minutes := NatToString(12 + index % 8);
    NatToStringLength(12 + index % 8);
    assert ReadTime(index)[..2] == minutes;
    assert (index + 8) % 8 == index % 8;
  }

  /** `coverImages`: the cover image URLs under each category name. */
  type CoverImages = map<string, seq<string>>

  /** The cover images of a category: `coverImages[name]`, `None` when the
      object has no such key. */
  function Covers(images: CoverImages, name: string): Option<seq<string>> {
    if name in images then Some(images[name]) else None
  }

  /** What the loop body reads for one entry: the category's name and
      cover images, the entry's index inside the category, the entry, and
      the id counter. */
  datatype Slot = Slot(category: string, covers: seq<string>, index: nat, entry: Entry, counter: nat)

  /** The article the loop body builds for one entry. */
  function BuildArticle(s: Slot): (a: FullArticle)
  {
    var k := Phrase(s.entry.keywords);
    FullArticle(
      ArticleId(s.counter),
      s.entry.title,
      Filled(Description, [k, Focus(s.entry.keywords)]),
      s.category,
      KindAt(s.index),
      if s.index < |s.covers| then Some(s.covers[s.index]) else None,
      ReadTime(s.index),
      s.entry.keywords,
      Filled(MetaDescription, [s.entry.title, k]),
      GenerateContent(s.category, s.entry.title, s.entry.keywords))
  }

  /** The description names the first keyword and then the second, or the
      first again when the second is missing or empty. */
  lemma DescriptionKeywords(s: Slot)
    ensures var d := BuildArticle(s).description; var kw := s.entry.keywords;
      && d.args[0] == Phrase(kw)
      && (|kw| >= 2 && kw[1] != "" ==> d.args[1] == kw[1])
      && (|kw| >= 1 && (|kw| < 2 || kw[1] == "") ==> d.args[1] == kw[0])
  {
  }

  /** The inner `forEach` from entry `index` on, numbered from `counter`. */
  function Row(category: string, covers: seq<string>, entries: seq<Entry>, index: nat, counter: nat): (r: seq<Slot>)
    ensures |r| == |entries|
    ensures forall i :: 0 <= i < |r| ==> r[i] == Slot(category, covers, index + i, entries[i], counter + i)
    decreases |entries|
  {
    if entries == [] then []
    else
      var rest := Row(category, covers, entries[1..], index + 1, counter + 1);
      assert forall i :: 1 <= i < |entries| ==> entries[i] == entries[1..][i - 1];
      [Slot(category, covers, index, entries[0], counter)] + rest
  }

  /** The entries of one category, numbered from `counter`. */
  function CategorySlots(c: Category, images: CoverImages, counter: nat): (r: seq<Slot>)
    ensures |r| == |c.entries|
  {
    Row(c.name, Covers(images, c.name).GetOr([]), c.entries, 0, counter)
  }

  function EntryCount(cats: seq<Category>): nat {
    if cats == [] then 0 else |cats[0].entries| + EntryCount(cats[1..])
  }

  /** Every category's entries one after the other, numbered on from
      `counter`; a category without cover images has none to read. */
  function Slots(cats: seq<Category>, images: CoverImages, counter: nat): (r: seq<Slot>)
    ensures |r| == EntryCount(cats)
  {
    if cats == [] then []
    else CategorySlots(cats[0], images, counter) + Slots(cats[1..], images, counter + |cats[0].entries|)
  }

  /** Reading `coverImages[category][index]` throws when the category has
      entries but no key in `coverImages`. */
  predicate Uncovered(c: Category, images: CoverImages) {
    c.entries != [] && c.name !in images
  }

  predicate Covered(cats: seq<Category>, images: CoverImages) {
    forall ci :: 0 <= ci < |cats| ==> !Uncovered(cats[ci], images)
  }

  /** Category `ci` is the first that throws. */
  predicate FirstUncovered(cats: seq<Category>, images: CoverImages, ci: nat) {
    && ci < |cats| && Uncovered(cats[ci], images)
    && forall cj :: 0 <= cj < ci ==> !Uncovered(cats[cj], images)
  }

  /** The assembly loop over the categories with the id counter at
      `counter`: what each article is built from, or the name of the
      category that threw. */
  function Assemble(cats: seq<Category>, images: CoverImages, counter: nat): Result<seq<Slot>, string> {
    if cats == [] then Success([])
    else if Uncovered(cats[0], images) then Failure(cats[0].name)
    else
      match Assemble(cats[1..], images, counter + |cats[0].entries|)
      case Failure(e) => Failure(e)
      case Success(rest) => Success(CategorySlots(cats[0], images, counter) + rest)
  }

  lemma CoveredCons(cats: seq<Category>, images: CoverImages)
    requires cats != []
    ensures Covered(cats, images) <==> !Uncovered(cats[0], images) && Covered(cats[1..], images)
  {
    if !Uncovered(cats[0], images) && Covered(cats[1..], images) {
      forall ci | 1 <= ci < |cats| ensures !Uncovered(cats[ci], images) {
        assert cats[ci] == cats[1..][ci - 1];
      }
    }
    if Covered(cats, images) {
      forall ci | 0 <= ci < |cats[1..]| ensures !Uncovered(cats[1..][ci], images) {
        assert cats[1..][ci] == cats[ci + 1];
      }
    }
  }

  /** The loop runs to the end exactly when every category with entries
      has cover images, and it then reads every entry in order. */
  lemma {:induction false} AssembleSucceeds(cats: seq<Category>, images: CoverImages, counter: nat)
    ensures Assemble(cats, images, counter).Success? <==> Covered(cats, images)
    ensures Assemble(cats, images, counter).Success? ==>
      Assemble(cats, images, counter).value == Slots(cats, images, counter)
  {
    if cats != [] {
      AssembleSucceeds(cats[1..], images, counter + |cats[0].entries|);
      CoveredCons(cats, images);
    }
  }

  /** Otherwise it stops at the first category that throws, and the error
      names it. */
  lemma {:induction false} AssembleFails(cats: seq<Category>, images: CoverImages, counter: nat)
    ensures Assemble(cats, images, counter).Failure? ==>
      exists ci: nat :: FirstUncovered(cats, images, ci) && Assemble(cats, images, counter).error == cats[ci].name
  {
    if cats != [] && !Uncovered(cats[0], images) {
      AssembleFails(cats[1..], images, counter + |cats[0].entries|);
      if Assemble(cats, images, counter).Failure? {
        var ci: nat :| FirstUncovered(cats[1..], images, ci)
          && Assemble(cats[1..], images, counter + |cats[0].entries|).error == cats[1..][ci].name;
        FirstUncoveredCons(cats, images, ci);
      }
    } else if cats != [] {
      assert FirstUncovered(cats, images, 0);
    }
  }

  lemma FirstUncoveredCons(cats: seq<Category>, images: CoverImages, ci: nat)
    requires cats != [] && !Uncovered(cats[0], images) && FirstUncovered(cats[1..], images, ci)
    ensures FirstUncovered(cats, images, ci + 1) && cats[ci + 1] == cats[1..][ci]
  {
    forall cj | 1 <= cj < ci + 1 ensures !Uncovered(cats[cj], images) {
      assert cats[cj] == cats[1..][cj - 1];
    }
  }

  /** Number of entries before category `ci`. */
  function Offset(cats: seq<Category>, ci: nat): (n: nat)
    requires ci <= |cats|
  {
    if ci == 0 then 0 else |cats[0].entries| + Offset(cats[1..], ci - 1)
  }

  /** The offset of a category counts the entries of the categories before
      it. */
  lemma {:induction false} OffsetCounts(cats: seq<Category>, ci: nat)
    requires ci <= |cats|
    ensures Offset(cats, ci) == EntryCount(cats[..ci])
    ensures Offset(cats, |cats|) == EntryCount(cats)
  {
    if ci > 0 {
      OffsetCounts(cats[1..], ci - 1);
      assert cats[..ci][1..] == cats[1..][..ci - 1];
    }
    if cats != [] {
      OffsetCounts(cats[1..], |cats| - 1);
    }
  }

  lemma AppendIndex<T>(head: seq<T>, rest: seq<T>, k: nat)
    requires k < |head| + |rest|
    ensures (head + rest)[k] == if k < |head| then head[k] else rest[k - |head|]
  {
  }

  /** The slot entry `i` of category `ci` should be read from: its
      category's name and cover images, its index inside the category and
      the number of its position overall. */
  function SlotFor(cats: seq<Category>, images: CoverImages, counter: nat, ci: nat, i: nat): Slot
    requires ci < |cats| && i < |cats[ci].entries|
  {
    Slot(cats[ci].name, Covers(images, cats[ci].name).GetOr([]), i, cats[ci].entries[i], counter + Offset(cats, ci) + i)
  }

  /** Entry `i` of category `ci` is read at position `Offset(cats, ci) + i`,
      with its index inside its category, its category's cover images and
      the number of its position overall. */
  lemma {:induction false} SlotsPlacement(cats: seq<Category>, images: CoverImages, counter: nat, ci: nat, i: nat)
    requires ci < |cats| && i < |cats[ci].entries|
    ensures Offset(cats, ci) + i < |Slots(cats, images, counter)|
    ensures Slots(cats, images, counter)[Offset(cats, ci) + i] == SlotFor(cats, images, counter, ci, i)
    decreases ci, 1
  {
    if ci == 0 {
      PlacementHead(cats, images, counter, i);
    } else {
      PlacementTail(cats, images, counter, ci, i);
    }
  }

  lemma PlacementHead(cats: seq<Category>, images: CoverImages, counter: nat, i: nat)
    requires cats != [] && i < |cats[0].entries|
    ensures i < |Slots(cats, images, counter)|
    ensures Slots(cats, images, counter)[i] == SlotFor(cats, images, counter, 0, i)
  {
    var head: seq<Slot> := CategorySlots(cats[0], images, counter);
    AppendIndex(head, Slots(cats[1..], images, counter + |cats[0].entries|), i);
  }

  lemma PlacementTail(cats: seq<Category>, images: CoverImages, counter: nat, ci: nat, i: nat)
    requires 0 < ci < |cats| && i < |cats[ci].entries|
    ensures Offset(cats, ci) + i < |Slots(cats, images, counter)|
    ensures Slots(cats, images, counter)[Offset(cats, ci) + i] == SlotFor(cats, images, counter, ci, i)
    decreases ci, 0
  {
    assert cats[1..][ci - 1] == cats[ci];
    SlotsPlacement(cats[1..], images, counter + |cats[0].entries|, ci - 1, i);
    var head: seq<Slot> := CategorySlots(cats[0], images, counter);
    var rest: seq<Slot> := Slots(cats[1..], images, counter + |cats[0].entries|);
    AppendIndex(head, rest, |head| + Offset(cats[1..], ci - 1) + i);
  }

  /** The counter runs from `counter` upwards, one per entry, across the
      categories in order. */
  lemma {:induction false} SlotsNumbered(cats: seq<Category>, images: CoverImages, counter: nat)
    ensures forall k :: 0 <= k < |Slots(cats, images, counter)| ==> Slots(cats, images, counter)[k].counter == counter + k
  {
    if cats != [] {
      var next := counter + |cats[0].entries|;
      SlotsNumbered(cats[1..], images, next);
      var head: seq<Slot> := CategorySlots(cats[0], images, counter);
      var rest: seq<Slot> := Slots(cats[1..], images, next);
      forall k | 0 <= k < |head + rest| ensures (head + rest)[k].counter == counter + k {
        AppendIndex(head, rest, k);
      }
    }
  }

  /** Every category has at least as many cover images as entries. */
  predicate EnoughCovers(cats: seq<Category>, images: CoverImages) {
    forall ci :: 0 <= ci < |cats| ==> |cats[ci].entries| <= |Covers(images, cats[ci].name).GetOr([])|
  }

  /** With enough cover images every entry's index has an image. */
  lemma {:induction false} SlotsCovered(cats: seq<Category>, images: CoverImages, counter: nat)
    requires EnoughCovers(cats, images)
    ensures forall k :: 0 <= k < |Slots(cats, images, counter)| ==>
      Slots(cats, images, counter)[k].index < |Slots(cats, images, counter)[k].covers|
  {
    if cats != [] {
      var next := counter + |cats[0].entries|;
      assert EnoughCovers(cats[1..], images) by {
        forall ci | 0 <= ci < |cats[1..]|
          ensures |cats[1..][ci].entries| <= |Covers(images, cats[1..][ci].name).GetOr([])|
        {
          assert cats[1..][ci] == cats[ci + 1];
        }
      }
      SlotsCovered(cats[1..], images, next);
      var head: seq<Slot> := CategorySlots(cats[0], images, counter);
      var rest: seq<Slot> := Slots(cats[1..], images, next);
      forall k | 0 <= k < |head + rest| ensures (head + rest)[k].index < |(head + rest)[k].covers| {
        AppendIndex(head, rest, k);
      }
    }
  }

  // ---------------------------------------------------------------------
  // The catalogue the script generates.

  /** The keys of `categories` and of `coverImages`, in declaration order. */
  const CategoryNames: seq<string> := [
    "ChatGPT Articles", "Google Gemini Articles", "AI Roadmap",
    "Video Generation Tools", "Image Generation Tools", "Productivity Articles" ]

  /** The script's loop: the id counter starts at 1 and every entry read is
      built into an article; nothing is written when a category throws. */
  function Generate(cats: seq<Category>, images: CoverImages): Result<seq<FullArticle>, string> {
    match Assemble(cats, images, 1)
    case Failure(e) => Failure(e)
    case Success(slots) => Success(Sequences.Map(BuildArticle, slots))
  }

  /** The article of entry `i` of category `ci`: its category, title and
      keywords; its id from its position overall; its type, read time and
      cover image from its index inside the category; content written
      about its own keywords and category. */
  lemma PlacedArticle(cats: seq<Category>, images: CoverImages, ci: nat, i: nat)
    requires Generate(cats, images).Success?
    requires ci < |cats| && i < |cats[ci].entries|
    ensures Offset(cats, ci) + i < |Generate(cats, images).value|
    ensures var a := Generate(cats, images).value[Offset(cats, ci) + i];
      var e := cats[ci].entries[i];
      var covers := Covers(images, cats[ci].name).GetOr([]);
      && a.id == ArticleId(1 + Offset(cats, ci) + i)
      && a.category == cats[ci].name && a.title == e.title && a.keywords == e.keywords
      && a.kind == KindAt(i) && a.readTime == ReadTime(i)
      && (a.thumbnail.Some? <==> i < |covers|)
      && (a.thumbnail.Some? ==> a.thumbnail.value == covers[i])
      && a.content == GenerateContent(cats[ci].name, e.title, e.keywords)
  {
    AssembleSucceeds(cats, images, 1);
    SlotsPlacement(cats, images, 1, ci, i);
  }

  /** The script's catalogue: the six categories in order, each with ten
      entries, and ten cover images under each of their names. */
  predicate SourceShaped(cats: seq<Category>, images: CoverImages) {
    && |cats| == 6
    && forall ci :: 0 <= ci < 6 ==>
         && cats[ci].name == CategoryNames[ci] && |cats[ci].entries| == 10
         && CategoryNames[ci] in images && |images[CategoryNames[ci]]| == 10
  }

  /** With `n` entries in every category, category `ci` starts at `n * ci`. */
  lemma {:induction false} OffsetUniform(cats: seq<Category>, n: nat, ci: nat)
    requires ci <= |cats|
    requires forall j :: 0 <= j < |cats| ==> |cats[j].entries| == n
    ensures Offset(cats, ci) == n * ci
  {
    if ci > 0 {
      forall j | 0 <= j < |cats[1..]| ensures |cats[1..][j].entries| == n {
        assert cats[1..][j] == cats[j + 1];
      }
      OffsetUniform(cats[1..], n, ci - 1);
    }
  }

  /** On the script's catalogue the loop runs to the end over sixty
      entries, each with a cover image, numbered 1 to 60. */
  lemma ShapedSlots(cats: seq<Category>, images: CoverImages)
    requires SourceShaped(cats, images)
    ensures Assemble(cats, images, 1) == Success(Slots(cats, images, 1))
    ensures Generate(cats, images) == Success(Sequences.Map(BuildArticle, Slots(cats, images, 1)))
    ensures |Slots(cats, images, 1)| == 60
    ensures forall k :: 0 <= k < 60 ==> Slots(cats, images, 1)[k].counter == 1 + k
    ensures forall k :: 0 <= k < 60 ==> Slots(cats, images, 1)[k].index < |Slots(cats, images, 1)[k].covers|
  {
    assert Covered(cats, images);
    AssembleSucceeds(cats, images, 1);
    OffsetCounts(cats, 6);
    OffsetUniform(cats, 10, 6);
    SlotsNumbered(cats, images, 1);
    assert EnoughCovers(cats, images);
    SlotsCovered(cats, images, 1);
  }

  /** Every article carries the id of the counter its entry was read
      with; with distinct counters, no two articles share an id. */
  lemma NumberedArticles(slots: seq<Slot>)
    ensures var r := Sequences.Map(BuildArticle, slots);
      && (forall k :: 0 <= k < |r| ==> r[k].id == ArticleId(slots[k].counter))
      && ((forall i, j :: 0 <= i < j < |slots| ==> slots[i].counter != slots[j].counter) ==>
          forall i, j :: 0 <= i < j < |r| ==> r[i].id != r[j].id)
  {
    var r := Sequences.Map(BuildArticle, slots);
    forall k | 0 <= k < |slots| ensures r[k].id == ArticleId(slots[k].counter) {
      ArticleAt(slots, k);
    }
    if forall i, j :: 0 <= i < j < |slots| ==> slots[i].counter != slots[j].counter {
      forall i, j | 0 <= i < j < |r| ensures r[i].id != r[j].id {
        IdsDiffer(slots[i].counter, slots[j].counter);
      }
    }
  }

  lemma ArticleAt(slots: seq<Slot>, k: nat)
    requires k < |slots|
    ensures var a := Sequences.Map(BuildArticle, slots)[k];
      && a.id == ArticleId(slots[k].counter)
      && (slots[k].index < |slots[k].covers| ==> a.thumbnail == Some(slots[k].covers[slots[k].index]))
  {
  }

  /** Entries whose index has a cover image become articles with a
      thumbnail. */
  lemma CoveredArticles(slots: seq<Slot>)
    requires forall k :: 0 <= k < |slots| ==> slots[k].index < |slots[k].covers|
    ensures var r := Sequences.Map(BuildArticle, slots);
      forall k :: 0 <= k < |r| ==> r[k].thumbnail == Some(slots[k].covers[slots[k].index])
  {
    forall k | 0 <= k < |slots| ensures Sequences.Map(BuildArticle, slots)[k].thumbnail == Some(slots[k].covers[slots[k].index]) {
      ArticleAt(slots, k);
    }
  }

  /** The script writes sixty articles numbered 1 to 60, with pairwise
      different ids, each with a cover image. */
  lemma GeneratedCatalogue(cats: seq<Category>, images: CoverImages)
    requires SourceShaped(cats, images)
    ensures Generate(cats, images).Success?
    ensures |Generate(cats, images).value| == 60
    ensures forall k :: 0 <= k < 60 ==> Generate(cats, images).value[k].id == ArticleId(k + 1)
    ensures forall i, j :: 0 <= i < j < 60 ==> Generate(cats, images).value[i].id != Generate(cats, images).value[j].id
    ensures forall k :: 0 <= k < 60 ==> Generate(cats, images).value[k].thumbnail.Some?
  {
    ShapedSlots(cats, images);
    var slots := Slots(cats, images, 1);
    NumberedArticles(slots);
    CoveredArticles(slots);
    forall k | 0 <= k < 60 ensures Generate(cats, images).value[k].id == ArticleId(k + 1) {
      assert slots[k].counter == k + 1;
    }
  }

  /** The ids run from `article-001` to `article-060`. */
  lemma IdRange()
    ensures ArticleId(1) == "article-001" && ArticleId(60) == "article-060"
  {
    assert NatToString(60) == "60";
  }

  /** Article `10 * ci + i` is entry `i` of the `ci`-th category: it is a
      Guide, Article or Ebook as `i` is 0, 1 or 2 modulo 3, it reads in
      `12 + i % 8` minutes, and its cover is image `i` of its category. */
  lemma GeneratedLayout(cats: seq<Category>, images: CoverImages, ci: nat, i: nat)
    requires SourceShaped(cats, images) && ci < 6 && i < 10
    ensures Generate(cats, images).Success?
    ensures 10 * ci + i < |Generate(cats, images).value|
    ensures var a := Generate(cats, images).value[10 * ci + i];
      && a.id == ArticleId(10 * ci + i + 1)
      && a.category == CategoryNames[ci] && a.title == cats[ci].entries[i].title
      && a.kind == KindAt(i) && a.readTime == ReadTime(i)
      && a.thumbnail == Some(images[CategoryNames[ci]][i])
  {
    ShapedSlots(cats, images);
    OffsetUniform(cats, 10, ci);
    PlacedArticle(cats, images, ci, i);
  }
}
