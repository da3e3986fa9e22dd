/** The keyword classifier of the video fetch script: a title is put in the
    first category, in declaration order, one of whose keywords occurs in the
    lower-cased title; a title matching no keyword gets the default. */
module Classifier {
  import opened Wrappers
  import opened Text

  /** An ordered table of (category label, keywords). */
  type Table = seq<(string, seq<string>)>

  /** `categoryKeywords`, in the declaration order that decides precedence. */
  const CategoryKeywords: Table := [
    ("ChatGPT Tutorials", ["chatgpt", "gpt", "openai", "chat gpt"]),
    ("Google Gemini Tutorials", ["gemini", "google", "bard", "firebase", "veo"]),
    ("AI Roadmap", ["roadmap", "guide", "learn", "beginner", "tutorial", "course"]),
    ("Video Generation Tools", ["video", "veo", "sora", "gen-2", "runway", "heygen", "synthesis"]),
    ("Image Generation Tools", ["image", "dall-e", "midjourney", "stable diffusion", "imagen", "picture", "art"]),
    ("Productivity Tutorials", ["productivity", "workflow", "automation", "tool", "app", "efficiency"])
  ]

  /** The label returned when no keyword occurs. */
  const DefaultCategory: string := "AI Roadmap"

  /** Some keyword of `keywords`, lower-cased, occurs in `lowerTitle`. */
  predicate Hits(lowerTitle: string, keywords: seq<string>) {
    exists k :: 0 <= k < |keywords| && Contains(lowerTitle, Lower(keywords[k]))
  }

  /** The inner `for (const keyword of keywords)` loop, from index `k` on. */
  function AnyKeyword(lowerTitle: string, keywords: seq<string>, k: nat): (b: bool)
    requires k <= |keywords|
    ensures b <==> exists j :: k <= j < |keywords| && Contains(lowerTitle, Lower(keywords[j]))
    decreases |keywords| - k
  {
    if k == |keywords| then false
    else Contains(lowerTitle, Lower(keywords[k])) || AnyKeyword(lowerTitle, keywords, k + 1)
  }

  /** The outer loop over categories from index `i` on: the index of the
      first category whose keywords hit, if any. */
  function FirstHit(lowerTitle: string, table: Table, i: nat): (r: Option<nat>)
    requires i <= |table|
    ensures r.Some? ==> i <= r.value < |table| && Hits(lowerTitle, table[r.value].1)
    ensures r.Some? ==> forall j :: i <= j < r.value ==> !Hits(lowerTitle, table[j].1)
    ensures r.None? ==> forall j :: i <= j < |table| ==> !Hits(lowerTitle, table[j].1)
    decreases |table| - i
  {
    if i == |table| then None
    else if AnyKeyword(lowerTitle, table[i].1, 0) then Some(i)
    else FirstHit(lowerTitle, table, i + 1)
  }

  /** `categorizeVideo` over an arbitrary table and default. */
  function CategorizeWith(table: Table, default: string, title: string): (c: string)
    ensures c == default || exists k :: 0 <= k < |table| && c == table[k].0
  {
    match FirstHit(Lower(title), table, 0)
    case None => default
    case Some(k) => table[k].0
  }

  /** `videoCategories` of the generated data file: the "All" sentinel,
      then the labels of the table. */
  const VideoCategories: seq<string> := [
    "All", "ChatGPT Tutorials", "Google Gemini Tutorials", "AI Roadmap",
    "Video Generation Tools", "Image Generation Tools", "Productivity Tutorials"
  ]

  /** `categorizeVideo(title)`: always one of the labels the generated file
      lists, and never the "All" sentinel. */
  function Categorize(title: string): (c: string)
    ensures c in VideoCategories[1..]
  {
    LabelsListed();
    CategorizeWith(CategoryKeywords, DefaultCategory, title)
  }

  lemma LabelsListed()
    ensures DefaultCategory in VideoCategories[1..]
    ensures forall k :: 0 <= k < |CategoryKeywords| ==> CategoryKeywords[k].0 == VideoCategories[k + 1]
  {
  }

  /** First match wins, stated independently of the loops: the result is the
      label of the earliest category with a hit, or the default when no
      category has one. */
  predicate FirstMatch(table: Table, default: string, title: string, c: string) {
    || (exists k :: 0 <= k < |table| && Hits(Lower(title), table[k].1)
          && (forall j :: 0 <= j < k ==> !Hits(Lower(title), table[j].1))
          && c == table[k].0)
    || ((forall j :: 0 <= j < |table| ==> !Hits(Lower(title), table[j].1)) && c == default)
  }

  /** The classifier returns the first-match label. */
  lemma CategorizeIsFirstMatch(table: Table, default: string, title: string)
    ensures FirstMatch(table, default, title, CategorizeWith(table, default, title))
  {
  }

  /** Hence the label is determined: any label satisfying the first-match
      rule is the classifier's. */
  lemma FirstMatchUnique(table: Table, default: string, title: string, c: string)
    requires FirstMatch(table, default, title, c)
    ensures c == CategorizeWith(table, default, title)
  {
  }

  /** A title containing "chatgpt" in any letter case is a ChatGPT tutorial. */
  lemma ChatGptTitle(title: string)
    requires Contains(Lower(title), "chatgpt")
    ensures Categorize(title) == "ChatGPT Tutorials"
  {
    assert Lower("chatgpt") == "chatgpt";
    assert Hits(Lower(title), CategoryKeywords[0].1) by {
      assert CategoryKeywords[0].1[0] == "chatgpt";
    }
  }

  /** "veo" is a keyword of both the Gemini and the video-generation
      categories; the Gemini category is declared first, so a title with
      "veo" is never put among the video-generation tools, and is a Gemini
      tutorial unless a ChatGPT keyword occurs too. */
  lemma VeoTitle(title: string)
    requires Contains(Lower(title), "veo")
    ensures Categorize(title) != "Video Generation Tools"
    ensures !Hits(Lower(title), CategoryKeywords[0].1) ==> Categorize(title) == "Google Gemini Tutorials"
  {
    assert Lower("veo") == "veo";
    assert Hits(Lower(title), CategoryKeywords[1].1) by {
      assert CategoryKeywords[1].1[4] == "veo";
    }
    var r := FirstHit(Lower(title), CategoryKeywords, 0);
    assert r.Some? && r.value <= 1;
  }

  /** A title with none of the keywords gets the default "AI Roadmap". */
  lemma NoKeywordTitle(title: string)
    requires forall j :: 0 <= j < |CategoryKeywords| ==> !Hits(Lower(title), CategoryKeywords[j].1)
    ensures Categorize(title) == DefaultCategory
  {
  }
}
