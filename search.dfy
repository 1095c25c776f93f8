/**
 * The `/search` command: a constant dataset of technologies by category,
 * searched case-insensitively, with autocomplete for both options.
 */
module Search {
  import opened Wrappers
  import opened Ascii
  import opened InteractionErrors

  /** The dataset's categories, in the key order of the object literal. */
  const Categories: seq<string> := ["frontend", "backend", "database", "devops", "languages"]

  /** The items of an own category of the dataset. */
  function CategoryItems(category: string): (items: Option<seq<string>>)
    ensures items.Some? <==> category in Categories
  {
    if category == "frontend" then Some(["React", "Vue", "Angular", "Svelte", "Ember"])
    else if category == "backend" then Some(["Node.js", "Django", "Flask", "Spring", "Rails"])
    else if category == "database" then Some(["PostgreSQL", "MySQL", "MongoDB", "Redis", "SQLite"])
    else if category == "devops" then Some(["Docker", "Kubernetes", "Jenkins", "GitHub Actions", "Travis CI"])
    else if category == "languages" then Some(["JavaScript", "Python", "Java", "C#", "Ruby", "Go", "Rust"])
    else None
  }

  /** `xs` keeps the order of `ys`, possibly skipping elements. */
  predicate Subsequence(xs: seq<string>, ys: seq<string>)
    decreases |ys|
  {
    xs == [] || (ys != [] && ((xs[0] == ys[0] && Subsequence(xs[1..], ys[1..])) || Subsequence(xs, ys[1..])))
  }

  /** `text.toLowerCase().includes(search.toLowerCase())`. */
  predicate MatchesIgnoringCase(text: string, search: string) {
    Contains(Lower(text), Lower(search))
  }

  /** `Array.prototype.filter` with the case-insensitive match. */
  function FilterIgnoringCase(xs: seq<string>, search: string): (r: seq<string>)
    ensures forall x :: x in r <==> x in xs && MatchesIgnoringCase(x, search)
    ensures |r| <= |xs|
  {
    if xs == [] then []
    else if MatchesIgnoringCase(xs[0], search) then [xs[0]] + FilterIgnoringCase(xs[1..], search)
    else FilterIgnoringCase(xs[1..], search)
  }

  /** The filter keeps the order of its input. */
  lemma {:induction false} FilterKeepsOrder(xs: seq<string>, search: string)
    ensures Subsequence(FilterIgnoringCase(xs, search), xs)
  {
    if xs != [] {
      FilterKeepsOrder(xs[1..], search);
    }
  }

  /** `Array.prototype.filter` with the case-sensitive match used on suggestions. */
  function FilterContaining(xs: seq<string>, search: string): (r: seq<string>)
    ensures forall x :: x in r <==> x in xs && Contains(x, search)
  {
    if xs == [] then []
    else if Contains(xs[0], search) then [xs[0]] + FilterContaining(xs[1..], search)
    else FilterContaining(xs[1..], search)
  }

  /** Every text contains the empty string, so an empty search keeps everything. */
  lemma {:induction false} EmptySearchKeepsAll(xs: seq<string>)
    ensures FilterIgnoringCase(xs, "") == xs
  {
    if xs != [] {
      assert Lower("") <= Lower(xs[0]);
      EmptySearchKeepsAll(xs[1..]);
    }
  }

  /** `searchCategories`: the category keys containing the search text, ignoring case, in key order. */
  function SearchCategories(search: string): (r: seq<string>)
    ensures forall c :: c in r <==> c in Categories && MatchesIgnoringCase(c, search)
  {
    FilterIgnoringCase(Categories, search)
  }

  /**
   * `searchTerms` and the filter in `onSearch`, with the category looked up
   * among the dataset's own keys: an unknown category gives no results.
   */
  function SearchTerms(category: string, search: string): (r: seq<string>)
    ensures category !in Categories ==> r == []
    ensures category in Categories ==>
      forall x :: x in r <==> x in CategoryItems(category).value && MatchesIgnoringCase(x, search)
  {
    match CategoryItems(category)
    case None => []
    case Some(items) => FilterIgnoringCase(items, search)
  }

  /** Categories are suggested in key order, and items found in dataset order. */
  lemma ResultsInDatasetOrder(category: string, search: string)
    ensures Subsequence(SearchCategories(search), Categories)
    ensures category in Categories ==> Subsequence(SearchTerms(category, search), CategoryItems(category).value)
  {
    FilterKeepsOrder(Categories, search);
    if category in Categories {
      FilterKeepsOrder(CategoryItems(category).value, search);
    }
  }

  /**
   * The lookup `DATABASE[category]?.filter(...)` as the code writes it: a
   * category that names a property every object inherits finds a function
   * or `Object.prototype` instead of `undefined`, has no `filter`, and the
   * call throws a TypeError.
   */
  const InheritedNames: set<string> := {
    "constructor", "__defineGetter__", "__defineSetter__", "hasOwnProperty",
    "__lookupGetter__", "__lookupSetter__", "isPrototypeOf", "propertyIsEnumerable",
    "toString", "valueOf", "__proto__", "toLocaleString"
  }

  const FilterTypeError := ErrorInfo("TypeError", "DATABASE[category]?.filter is not a function")

  function SearchTermsAsWritten(category: string, search: string): (r: Result<seq<string>, ErrorInfo>)
    ensures category in InheritedNames <==> r.Err?
    ensures r.Ok? ==> r.value == SearchTerms(category, search)
  {
    if category in InheritedNames then Err(FilterTypeError) else Ok(SearchTerms(category, search))
  }

  function NoResultsText(term: string, category: string): string {
    "\U{274C} No results found for `" + term + "` in category `" + category + "`."
  }

  function ResultsText(term: string, category: string, results: seq<string>): string {
    "\U{1F50D} Results for `" + term + "` in category `" + category + "`: " + Join(results, ", ")
  }

  /** `onSearch`: the matching items, or an error naming the term and the category. */
  function OnSearch(term: string, category: string): (r: Result<string, InteractionError>)
    ensures r.Err? <==> forall x :: x in SearchTerms(category, term) ==> false
    ensures r.Err? <==> (category !in Categories
                         || forall x :: x in CategoryItems(category).value ==> !MatchesIgnoringCase(x, term))
    ensures r.Err? ==> r.error == NewInteractionError(NoResultsText(term, category), None)
    ensures r.Ok? ==> r.value == ResultsText(term, category, SearchTerms(category, term))
  {
    var results := SearchTerms(category, term);
    if |results| == 0 then Err(NewInteractionError(NoResultsText(term, category), None))
    else
      assert results[0] in results;
      Ok(ResultsText(term, category, results))
  }

  /**
   * A search in the category "constructor": the code throws, and the
   * exception filter answers with the generic text; an own-key lookup
   * reports that nothing was found.
   */
  lemma ConstructorCategoryThrows(term: string)
    ensures SearchTermsAsWritten("constructor", term) == Err(FilterTypeError)
    ensures FromError(OtherError(FilterTypeError)).userMessage == GenericText
    ensures OnSearch(term, "constructor") == Err(NewInteractionError(NoResultsText(term, "constructor"), None))
  {
  }

  /** The value the command's `category` option holds during autocomplete. */
  datatype OptionValue = Text(s: string) | NonText

  datatype Choice = Choice(name: string, value: string)

  /** The choices `transformOptions` collects before its final filter. */
  function Collected(focusedName: string, focusedValue: string, category: Option<OptionValue>): (r: seq<string>)
    ensures focusedName != "category" && focusedName != "term" ==> r == []
    ensures focusedName == "term" && (category.None? || category.value.NonText? || category.value.s == "") ==> r == []
  {
    if focusedName == "category" then SearchCategories(focusedValue)
    else if focusedName == "term" then
      if category.Some? && category.value.Text? && category.value.s != "" then SearchTerms(category.value.s, focusedValue)
      else []
    else []
  }

  /** Names and values of the suggestions, both the choice itself. */
  function AsChoices(names: seq<string>): (r: seq<Choice>)
    ensures |r| == |names|
    ensures forall c :: c in r <==> c.name == c.value && c.value in names
  {
    var r := seq(|names|, i requires 0 <= i < |names| => Choice(names[i], names[i]));
    assert forall i :: 0 <= i < |names| ==> r[i] == Choice(names[i], names[i]);
    r
  }

  /** The suggestions sent back: collected choices containing the typed text exactly, each named by its value. */
  function Suggestions(focusedName: string, focusedValue: string, category: Option<OptionValue>): (r: seq<Choice>)
    ensures forall c :: c in r ==> c.name == c.value
    ensures forall c :: c in r ==> c.value in Collected(focusedName, focusedValue, category) && Contains(c.value, focusedValue)
    ensures forall x :: x in Collected(focusedName, focusedValue, category) && Contains(x, focusedValue) ==> Choice(x, x) in r
  {
    var collected := Collected(focusedName, focusedValue, category);
    AsChoices(FilterContaining(collected, focusedValue))
  }

  /** `transformOptions`: collects the candidate choices, then keeps the ones containing the typed text. */
  method TransformOptions(focusedName: string, focusedValue: string, category: Option<OptionValue>) returns (suggestions: seq<Choice>)
    ensures suggestions == Suggestions(focusedName, focusedValue, category)
  {
    var choices: seq<string> := [];
    if focusedName == "category" {
      choices := choices + SearchCategories(focusedValue);
    } else if focusedName == "term" {
      if category.Some? && category.value.Text? && category.value.s != "" {
        choices := choices + SearchTerms(category.value.s, focusedValue);
      }
    }
    assert choices == Collected(focusedName, focusedValue, category);
    var kept := KeepContaining(choices, focusedValue);
    suggestions := AsChoices(kept);
  }

  /** The final `filter` of `transformOptions`, one choice at a time. */
  method KeepContaining(choices: seq<string>, search: string) returns (kept: seq<string>)
    ensures kept == FilterContaining(choices, search)
  {
    kept := [];
    var i := 0;
    while i < |choices|
      invariant 0 <= i <= |choices|
      invariant kept == FilterContaining(choices[..i], search)
    {
      FilterContainingSnoc(choices[..i], choices[i], search);
      assert choices[..i + 1] == choices[..i] + [choices[i]];
      if Contains(choices[i], search) {
        kept := kept + [choices[i]];
      }
      i := i + 1;
    }
    assert choices[..i] == choices;
  }

  lemma {:induction false} FilterContainingSnoc(xs: seq<string>, x: string, search: string)
    ensures FilterContaining(xs + [x], search)
         == FilterContaining(xs, search) + (if Contains(x, search) then [x] else [])
  {
    if xs == [] {
      assert xs + [x] == [x];
      assert [x][1..] == [];
    } else {
      assert (xs + [x])[1..] == xs[1..] + [x];
      FilterContainingSnoc(xs[1..], x, search);
    }
  }

  /** Every character of a contained string occurs in the text. */
  lemma {:induction false} ContainedChars(s: string, sub: string)
    requires Contains(s, sub)
    ensures forall c :: c in sub ==> c in s
    decreases |s|
  {
    if sub <= s {
      forall c | c in sub ensures c in s {
        var i :| 0 <= i < |sub| && sub[i] == c;
        assert s[i] == c;
      }
    } else {
      ContainedChars(s[1..], sub);
      forall c | c in sub ensures c in s {
        var i :| 0 <= i < |s[1..]| && s[1..][i] == c;
        assert s[i + 1] == c;
      }
    }
  }

  /** A text missing one of the search's characters does not contain it. */
  lemma Lacks(s: string, sub: string, c: char)
    requires c in sub && c !in s
    ensures !Contains(s, sub)
  {
    if Contains(s, sub) {
      ContainedChars(s, sub);
    }
  }

  /**
   * The final filter of `transformOptions` matches case-sensitively: an item
   * the search finds only by ignoring case is never suggested.
   */
  lemma CaseSensitiveSuggestions(category: string, term: string, x: string)
    requires category in Categories && x in CategoryItems(category).value
    requires MatchesIgnoringCase(x, term) && !Contains(x, term)
    ensures x in SearchTerms(category, term)
    ensures Choice(x, x) !in Suggestions("term", term, Some(Text(category)))
  {
  }

  /** Typing "react" for the term in "frontend" finds "React" but does not suggest it. */
  lemma LowerCaseTermHasNoSuggestion()
    ensures "React" in SearchTerms("frontend", "react")
    ensures Choice("React", "React") !in Suggestions("term", "react", Some(Text("frontend")))
  {
    assert Lower("React") == "react";
    assert Lower("react") == "react";
    assert "react" <= "react";
    Lacks("React", "react", 'r');
    CaseSensitiveSuggestions("frontend", "react", "React");
  }
}
