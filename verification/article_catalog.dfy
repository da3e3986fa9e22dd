/** The articles page: a fixed list of thirteen articles, a side bar of
    categories headed by 'All', the category filter, the per-category
    counts, the grouped overview shown for 'All' and the type badges. The
    video pages filter their lists with the same expression. */
module ArticleCatalog {
  import opened Text
  import Sequences

  datatype ArticleType = Article | Ebook | Guide

  /** One entry of `articlesData`; the title, description, thumbnail and
      read time are display text and are not modelled. */
  datatype Item = Item(id: string, category: string, kind: ArticleType)

  const All := "All"
  const ChatGpt := "ChatGPT Articles"
  const Gemini := "Google Gemini Articles"
  const Roadmap := "AI Roadmap"
  const VideoTools := "Video Generation Tools"
  const ImageTools := "Image Generation Tools"
  const Productivity := "Productivity Articles"

  /** The side bar: 'All' first, then the six categories. */
  const Categories: seq<string> := [All, ChatGpt, Gemini, Roadmap, VideoTools, ImageTools, Productivity]

  const ArticlesData: seq<Item> := [
    Item("1", ChatGpt, Guide),
    Item("2", ChatGpt, Article),
    Item("3", ChatGpt, Article),
    Item("4", Gemini, Guide),
    Item("5", Gemini, Article),
    Item("6", Roadmap, Ebook),
    Item("7", Roadmap, Guide),
    Item("8", VideoTools, Article),
    Item("9", VideoTools, Guide),
    Item("10", ImageTools, Article),
    Item("11", ImageTools, Guide),
    Item("12", Productivity, Article),
    Item("13", Productivity, Ebook)
  ]

  predicate InCategory(x: Item, c: string) {
    x.category == c
  }

  /** How many of `items` are in category `c`: the reference the counts
      are checked against. */
  function Occurrences(items: seq<Item>, c: string): nat {
    if items == [] then 0
    else (if items[0].category == c then 1 else 0) + Occurrences(items[1..], c)
  }

  /** `getCategoryArticles`: the articles of category `c`, in list order.
      No article is in the category 'All', so that choice gives none. */
  function CategoryArticles(items: seq<Item>, c: string): (r: seq<Item>)
    ensures Sequences.IsSubsequence(r, items)
    ensures forall i :: 0 <= i < |r| ==> r[i].category == c
    ensures forall i :: 0 <= i < |items| && items[i].category == c ==> items[i] in r
    ensures |r| == Occurrences(items, c)
  {
    var keep := (x: Item) => InCategory(x, c);
    Sequences.FilterIsSubsequence(keep, items);
    FilterOccurrences(items, c);
    Sequences.Filter(keep, items)
  }

  lemma {:induction false} FilterOccurrences(items: seq<Item>, c: string)
    ensures |Sequences.Filter((x: Item) => InCategory(x, c), items)| == Occurrences(items, c)
  {
    if items != [] {
      FilterOccurrences(items[1..], c);
    }
  }

  /** `filteredArticles`: the whole list for 'All', otherwise exactly the
      articles of the chosen category, in list order. */
  function FilteredArticles(items: seq<Item>, selected: string): (r: seq<Item>)
    ensures selected == All ==> r == items
    ensures selected != All ==> Sequences.IsSubsequence(r, items)
    ensures selected != All ==> forall i :: 0 <= i < |r| ==> r[i].category == selected
    ensures selected != All ==> forall i :: 0 <= i < |items| && items[i].category == selected ==> items[i] in r
  {
    if selected == All then items else CategoryArticles(items, selected)
  }

  /** `getArticleCountByCategory`: the length of the list, or the number
      of articles in the category; either way the number of cards the
      filter then shows. */
  function CountByCategory(items: seq<Item>, c: string): (r: nat)
    ensures c == All ==> r == |items|
    ensures c != All ==> r == Occurrences(items, c)
    ensures r == |FilteredArticles(items, c)|
  {
    if c == All then |items| else |CategoryArticles(items, c)|
  }

  // ---------------------------------------------------------------------
  // The counts add up.

  /** How often `c` appears in `cats`. */
  function Mentions(cats: seq<string>, c: string): nat {
    if cats == [] then 0 else (if cats[0] == c then 1 else 0) + Mentions(cats[1..], c)
  }

  predicate Distinct(cats: seq<string>) {
    forall i, j :: 0 <= i < j < |cats| ==> cats[i] != cats[j]
  }

  /** The counts beside the categories of `cats`, added up. */
  function SumOfCounts(items: seq<Item>, cats: seq<string>): nat {
    if cats == [] then 0 else Occurrences(items, cats[0]) + SumOfCounts(items, cats[1..])
  }

  /** Adding one article adds one to the count of each mention of its
      category. */
  lemma {:induction false} SumOfCountsCons(x: Item, items: seq<Item>, cats: seq<string>)
    ensures SumOfCounts([x] + items, cats) == SumOfCounts(items, cats) + Mentions(cats, x.category)
  {
    assert ([x] + items)[1..] == items;
    if cats != [] {
      SumOfCountsCons(x, items, cats[1..]);
    }
  }

  /** A category listed once is mentioned once. */
  lemma {:induction false} MentionedOnce(cats: seq<string>, c: string)
    requires Distinct(cats) && c in cats
    ensures Mentions(cats, c) == 1
  {
    if cats[0] == c {
      NotMentioned(cats[1..], c);
    } else {
      MentionedOnce(cats[1..], c);
    }
  }

  lemma {:induction false} NotMentioned(cats: seq<string>, c: string)
    requires c !in cats
    ensures Mentions(cats, c) == 0
  {
    if cats != [] {
      NotMentioned(cats[1..], c);
    }
  }

  /** When the categories are listed once each and every article's
      category is among them, the per-category counts add up to the number
      of articles. */
  lemma {:induction false} CountsAddUp(items: seq<Item>, cats: seq<string>)
    requires Distinct(cats)
    requires forall i :: 0 <= i < |items| ==> items[i].category in cats
    ensures SumOfCounts(items, cats) == |items|
  {
    if items == [] {
      NoItemsNoCount(cats);
    } else {
      CountsAddUp(items[1..], cats);
      SumOfCountsCons(items[0], items[1..], cats);
      MentionedOnce(cats, items[0].category);
      assert [items[0]] + items[1..] == items;
    }
  }

  lemma {:induction false} NoItemsNoCount(cats: seq<string>)
    ensures SumOfCounts([], cats) == 0
  {
    if cats != [] {
      NoItemsNoCount(cats[1..]);
    }
  }

  // ---------------------------------------------------------------------
  // The grouped overview.

  /** A section of the overview: a category heading, its count and the
      cards shown under it. */
  datatype Group = Group(category: string, count: nat, shown: seq<Item>)

  /** The first `min(3, count)` articles of a category: `slice(0, 3)`. */
  function FirstThree(r: seq<Item>): seq<Item> {
    if |r| <= 3 then r else r[..3]
  }

  /** The category a section is headed by. */
  function SectionCategory(g: Group): string {
    g.category
  }

  /** One section per category of `cats`, in order, skipping the empty
      ones. */
  function Groups(items: seq<Item>, cats: seq<string>): (gs: seq<Group>)
    ensures |gs| <= |cats|
    ensures Sequences.Map(SectionCategory, gs) == Sequences.Filter(c => Occurrences(items, c) > 0, cats)
    ensures forall k :: 0 <= k < |gs| ==>
      && gs[k].category in cats
      && gs[k].count == Occurrences(items, gs[k].category) > 0
      && |gs[k].shown| == (if gs[k].count < 3 then gs[k].count else 3)
      && gs[k].shown <= CategoryArticles(items, gs[k].category)
  {
    if cats == [] then []
    else
      var arts := CategoryArticles(items, cats[0]);
      var rest := Groups(items, cats[1..]);
      var g := Group(cats[0], |arts|, FirstThree(arts));
      Sequences.MapCons(SectionCategory, g, rest);
      if |arts| == 0 then rest
      else [g] + rest
  }

  predicate HasSection(gs: seq<Group>, c: string) {
    exists k :: 0 <= k < |gs| && gs[k].category == c
  }

  lemma SectionCons(g: Group, gs: seq<Group>, c: string)
    ensures HasSection([g] + gs, c) <==> g.category == c || HasSection(gs, c)
  {
    if HasSection(gs, c) {
      var k :| 0 <= k < |gs| && gs[k].category == c;
      assert ([g] + gs)[k + 1] == gs[k];
    }
    if HasSection([g] + gs, c) && g.category != c {
      var k :| 0 <= k < |[g] + gs| && ([g] + gs)[k].category == c;
      assert gs[k - 1] == ([g] + gs)[k];
    }
    assert ([g] + gs)[0] == g;
  }

  /** A category has a section exactly when it is listed and has at least
      one article. */
  lemma GroupsCover(items: seq<Item>, cats: seq<string>, c: string)
    ensures HasSection(Groups(items, cats), c) <==> c in cats && Occurrences(items, c) > 0
  {
  }

  /** The overview shown for 'All': `categories.slice(1)`. */
  function Overview(items: seq<Item>): seq<Group> {
    Groups(items, Categories[1..])
  }

  // ---------------------------------------------------------------------
  // Badges and labels.

  /** The colour family of each type's badge. */
  function Palette(kind: ArticleType): (p: string)
    ensures |p| >= 4
  {
    match kind
    case Article => "blue"
    case Ebook => "purple"
    case Guide => "green"
  }

  /** The badge classes for a colour family, light and dark. */
  function Badge(p: string): string {
    "bg-" + p + "-100 text-" + p + "-800 dark:bg-" + p + "-900/30 dark:text-" + p + "-300"
  }

  /** `getTypeStyles`: the badge classes of each article type. The
      `default` branch cannot be reached, since every item has one of
      the three types. */
  function TypeStyles(kind: ArticleType): string {
    Badge(Palette(kind))
  }

  /** Each type has its own badge: the classes tell the types apart. */
  lemma TypeStylesDistinct(a: ArticleType, b: ArticleType)
    ensures TypeStyles(a) == TypeStyles(b) <==> a == b
  {
    if a != b {
      assert TypeStyles(a)[3] == Palette(a)[0];
      assert TypeStyles(b)[3] == Palette(b)[0];
    }
  }

  /** The noun after the count. */
  function Noun(n: nat): (r: string)
    ensures r == "article" <==> n == 1
    ensures ' ' !in r
  {
    if n != 1 then "articles" else "article"
  }

  /** The line under a category heading, such as "2 articles found". */
  function FoundLabel(n: nat): string {
    NatToString(n) + " " + Noun(n) + " found"
  }

  /** The label reads back: its words are the count, which parses to `n`,
      the singular noun exactly when `n` is 1, and "found". */
  lemma FoundLabelReads(n: nat)
    ensures Split(FoundLabel(n), ' ') == [NatToString(n), Noun(n), "found"]
    ensures ParseNat(Split(FoundLabel(n), ' ')[0]) == n
    ensures Split(FoundLabel(n), ' ')[1] == "article" <==> n == 1
  {
    var parts := [NatToString(n), Noun(n), "found"];
    NoSpaceInNumber(n);
    LabelJoins(n);
    JoinSplit(parts, ' ');
  }

  lemma NoSpaceInNumber(n: nat)
    ensures ' ' !in NatToString(n)
  {
    forall i | 0 <= i < |NatToString(n)|
      ensures NatToString(n)[i] != ' '
    {
      assert IsDigit(NatToString(n)[i]);
    }
  }

  lemma LabelJoins(n: nat)
    ensures Join([NatToString(n), Noun(n), "found"], ' ') == FoundLabel(n)
  {
    var parts := [NatToString(n), Noun(n), "found"];
    assert Join(parts[2..], ' ') == "found";
    assert Join(parts[1..], ' ') == Noun(n) + " " + "found";
  }

  // ---------------------------------------------------------------------
  // The page's own list.

  /** The side bar lists each category once, 'All' first, and every
      article's category is one of the six after it; so the six counts
      add up to the thirteen articles. */
  lemma ArticlesDataShape()
    ensures |ArticlesData| == 13 && Categories[0] == All
    ensures Distinct(Categories)
    ensures forall i :: 0 <= i < |ArticlesData| ==> ArticlesData[i].category in Categories[1..]
    ensures SumOfCounts(ArticlesData, Categories[1..]) == |ArticlesData|
  {
    CountsAddUp(ArticlesData, Categories[1..]);
  }
}
