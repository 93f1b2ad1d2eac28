/*
  The auto-reply picked when a visitor comments on one of the station
  characters' posts (getContextualReply in script.js).  The comment is
  lower-cased, the first of twelve keyword rules that it mentions chooses a
  reply category, with fallbacks when the character has no such category,
  and a random line of that category is returned.  The reply texts
  themselves are not modelled: a reply is named by its character, category
  and line index.
*/
module Replies {

  import opened Wrappers

  /** The six characters that have reply tables. */
  datatype Character = Mary | Carl | Dick | Walter | Scally | Toni

  /** The reply categories appearing in the tables. */
  datatype Topic =
    | Drink | Food | Dog | Earth | Mining | Truth | Conspiracy | Disagree
    | Wisdom | Space | Deal | Business | Romance | Style | Compliment | Default

  /** A reply: the generic thanks for an unknown character, or line `index`
      of a character's category. */
  datatype Reply = Generic | Line(character: Character, topic: Topic, index: nat)

  /** The key under which a character's table is stored. */
  function Name(c: Character): string {
    match c
    case Mary => "mary"
    case Carl => "carl"
    case Dick => "dick"
    case Walter => "walter"
    case Scally => "scally"
    case Toni => "toni"
  }

  /** Looking up a character's table by key. */
  function Persona(name: string): (r: Option<Character>)
    ensures r.Some? ==> Name(r.value) == name
  {
    if name == "mary" then Some(Mary)
    else if name == "carl" then Some(Carl)
    else if name == "dick" then Some(Dick)
    else if name == "walter" then Some(Walter)
    else if name == "scally" then Some(Scally)
    else if name == "toni" then Some(Toni)
    else None
  }

  /** Every character is found under its own key. */
  lemma PersonaName(c: Character)
    ensures Persona(Name(c)) == Some(c)
  {
    match c
    case Mary =>
    case Carl => assert Name(c) != "mary";
    case Dick => assert Name(c) != "mary" && Name(c) != "carl";
    case Walter => assert Name(c) != "mary" && Name(c) != "carl" && Name(c) != "dick";
    case Scally => assert Name(c) !in ["mary", "carl", "dick", "walter"];
    case Toni => assert Name(c) !in ["mary", "carl", "dick", "walter", "scally"];
  }

  /** The categories in each character's table; every table has a default. */
  function Topics(c: Character): set<Topic> {
    match c
    case Mary => {Drink, Food, Compliment, Default}
    case Carl => {Dog, Earth, Mining, Compliment, Default}
    case Dick => {Truth, Conspiracy, Disagree, Default}
    case Walter => {Wisdom, Space, Compliment, Default}
    case Scally => {Deal, Business, Compliment, Default}
    case Toni => {Romance, Style, Compliment, Default}
  }

  /** The number of lines in a category: three for a topic, two for the default. */
  function Lines(c: Character, t: Topic): nat {
    if t !in Topics(c) then 0 else if t == Default then 2 else 3
  }

  // ---------------------------------------------------------------------
  // Text matching

  /** `toLowerCase` on the ASCII letters. */
  function LowerChar(ch: char): (r: char)
    ensures !('A' <= r <= 'Z')
    ensures 'A' <= ch <= 'Z' ==> 'a' <= r <= 'z' && r as int - 'a' as int == ch as int - 'A' as int
    ensures 'A' <= ch <= 'Z' || r == ch
  {
    if 'A' <= ch <= 'Z' then (ch as int + 32) as char else ch
  }

  function Lower(s: string): (r: string)
    ensures |r| == |s|
    ensures forall i :: 0 <= i < |s| ==> r[i] == LowerChar(s[i])
  {
    if s == [] then [] else [LowerChar(s[0])] + Lower(s[1..])
  }

  /** Lower-casing twice is lower-casing once, and it leaves no capital. */
  lemma LowerIdempotent(s: string)
    ensures Lower(Lower(s)) == Lower(s)
    ensures forall i :: 0 <= i < |s| ==> !('A' <= Lower(s)[i] <= 'Z')
  {
  }

  /** `s.includes(k)`: `k` occurs somewhere in `s` (the empty string occurs everywhere). */
  function Contains(s: string, k: string): bool
    decreases |s|
  {
    if |k| > |s| then false
    else if s[..|k|] == k then true
    else Contains(s[1..], k)
  }

  /** `k` occurs in `s` at offset `i`. */
  predicate OccursAt(s: string, k: string, i: int) {
    0 <= i <= |s| - |k| && s[i..i + |k|] == k
  }

  /** `Contains` holds exactly when `k` occurs at some offset of `s`. */
  lemma {:induction false} ContainsAt(s: string, k: string)
    ensures Contains(s, k) <==> exists i :: OccursAt(s, k, i)
    decreases |s|
  {
    if |k| <= |s| && s[..|k|] == k {
      assert OccursAt(s, k, 0);
    } else if |k| <= |s| {
      ContainsAt(s[1..], k);
      if Contains(s, k) {
        var i :| OccursAt(s[1..], k, i);
        assert s[i + 1..i + 1 + |k|] == s[1..][i..i + |k|];
        assert OccursAt(s, k, i + 1);
      }
      if exists i :: OccursAt(s, k, i) {
        var i :| OccursAt(s, k, i);
        assert i != 0;
        assert s[1..][i - 1..i - 1 + |k|] == s[i..i + |k|];
        assert OccursAt(s[1..], k, i - 1);
      }
    }
  }

  // ---------------------------------------------------------------------
  // The keyword rules

  /** A rule: if the comment mentions any of the keywords, the reply comes
      from the first of the preferred categories the character has, else
      from its default. */
  datatype Rule = Rule(keywords: seq<string>, prefs: seq<Topic>)

  /** The rules in the order they are tried; after them comes the default. */
  const Rules: seq<Rule> := [
    Rule(["dog", "puppy", "pet"], [Dog]),
    Rule(["earth", "planet", "home"], [Earth]),
    Rule(["drink", "cocktail", "beer", "alcohol"], [Drink]),
    Rule(["food", "meal", "eat", "hungry"], [Food]),
    Rule(["mining", "asteroid", "crystal", "work"], [Mining]),
    Rule(["truth", "conspiracy", "wake up", "evidence"], [Truth, Conspiracy]),
    Rule(["wisdom", "wise", "experience", "learn"], [Wisdom]),
    Rule(["star", "space", "universe", "cosmos"], [Space]),
    Rule(["deal", "buy", "sell", "business"], [Deal, Business]),
    Rule(["love", "romance", "date", "beautiful"], [Romance, Style]),
    Rule(["great", "awesome", "amazing", "fantastic", "best"], [Compliment]),
    Rule(["wrong", "disagree", "no", "bad"], [Disagree])
  ]

  predicate Mentions(comment: string, r: Rule) {
    exists j :: 0 <= j < |r.keywords| && Contains(comment, r.keywords[j])
  }

  /** The first rule from index `i` on that the comment mentions. */
  function FirstRule(comment: string, rules: seq<Rule>, i: nat): (r: Option<nat>)
    requires i <= |rules|
    ensures r.Some? ==> i <= r.value < |rules| && Mentions(comment, rules[r.value])
    ensures r.Some? ==> forall j :: i <= j < r.value ==> !Mentions(comment, rules[j])
    ensures r.None? <==> forall j :: i <= j < |rules| ==> !Mentions(comment, rules[j])
    decreases |rules| - i
  {
    if i == |rules| then None
    else if Mentions(comment, rules[i]) then Some(i)
    else FirstRule(comment, rules, i + 1)
  }

  /** `a || b || default`: the first preferred category the character has. */
  function Pick(topics: set<Topic>, prefs: seq<Topic>): (t: Topic)
    ensures (exists k :: 0 <= k < |prefs| && prefs[k] in topics) ==> t in prefs && t in topics
    ensures (forall k :: 0 <= k < |prefs| ==> prefs[k] !in topics) ==> t == Default
  {
    if prefs == [] then Default
    else if prefs[0] in topics then prefs[0]
    else Pick(topics, prefs[1..])
  }

  /** Every preference before the one picked is missing from the table. */
  lemma {:induction false} PickFirst(topics: set<Topic>, prefs: seq<Topic>, k: nat)
    requires k < |prefs| && prefs[k] in topics
    ensures Pick(topics, prefs) in prefs[..k + 1]
  {
    if prefs[0] !in topics {
      PickFirst(topics, prefs[1..], k - 1);
      assert prefs[1..][..k] == prefs[1..k + 1];
    }
  }

  /** The category of the reply to `comment`. */
  function Category(c: Character, comment: string): Topic {
    Choose(Topics(c), Lower(comment), Rules)
  }

  /** The category the rules give a character with table `topics`: the
      pick among the preferences of the first rule the comment mentions, or
      the default when it mentions none. */
  function Choose(topics: set<Topic>, comment: string, rules: seq<Rule>): Topic {
    match FirstRule(comment, rules, 0)
    case None => Default
    case Some(i) => Pick(topics, rules[i].prefs)
  }

  /** The reply: generic for an unknown character, otherwise line
      floor(roll * count) of the chosen category, `roll` standing for
      `Math.random()`. */
  function ContextualReply(name: string, comment: string, roll: real): Reply
    requires 0.0 <= roll < 1.0
  {
    match Persona(name)
    case None => Generic
    case Some(c) =>
      var t := Category(c, comment);
      Line(c, t, Scaled(roll, Lines(c, t)))
  }

  /** `Math.floor(roll * n)`: an index into a list of `n` lines. */
  function Scaled(roll: real, n: nat): (k: nat)
    requires 0.0 <= roll < 1.0
    ensures n > 0 ==> k < n
  {
    var x := roll * n as real;
    Scale(roll, n as real);
    x.Floor
  }

  lemma Scale(roll: real, n: real)
    requires 0.0 <= roll < 1.0 && 0.0 <= n
    ensures 0.0 <= roll * n <= n
    ensures 0.0 < n ==> roll * n < n
  {
  }

  // ---------------------------------------------------------------------
  // Properties of the choice

  /** The chosen category is always one the character's table has. */
  lemma CategoryAvailable(c: Character, comment: string)
    ensures Category(c, comment) in Topics(c)
  {
  }

  /** A comment that mentions no keyword gets a default line. */
  lemma SilentDefault(c: Character, comment: string)
    requires forall i :: 0 <= i < |Rules| ==> !Mentions(Lower(comment), Rules[i])
    ensures Category(c, comment) == Default
  {
  }

  /** The first rule mentioned decides: when the character has its first
      preferred category, that category is chosen, whatever later rules the
      comment also mentions. */
  lemma FirstMentionWins(c: Character, comment: string, i: nat)
    requires i < |Rules| && Mentions(Lower(comment), Rules[i])
    requires forall j :: 0 <= j < i ==> !Mentions(Lower(comment), Rules[j])
    ensures Rules[i].prefs[0] in Topics(c) ==> Category(c, comment) == Rules[i].prefs[0]
    ensures (forall k :: 0 <= k < |Rules[i].prefs| ==> Rules[i].prefs[k] !in Topics(c)) ==> Category(c, comment) == Default
  {
    RulesPrefer(i);
    ChooseFirst(Topics(c), Lower(comment), Rules, i);
  }

  /** Every rule prefers at least one category. */
  lemma RulesPrefer(i: nat)
    requires i < |Rules|
    ensures Rules[i].prefs != []
  {
  }

  /** `FirstMentionWins` for any rule list. */
  lemma ChooseFirst(topics: set<Topic>, comment: string, rules: seq<Rule>, i: nat)
    requires i < |rules| && Mentions(comment, rules[i])
    requires forall j :: 0 <= j < i ==> !Mentions(comment, rules[j])
    ensures rules[i].prefs != [] && rules[i].prefs[0] in topics ==> Choose(topics, comment, rules) == rules[i].prefs[0]
    ensures (forall k :: 0 <= k < |rules[i].prefs| ==> rules[i].prefs[k] !in topics) ==> Choose(topics, comment, rules) == Default
  {
    assert FirstRule(comment, rules, 0) == Some(i);
  }

  /** A category other than the default was earned: some rule was mentioned,
      no earlier rule was, and the category is among that rule's preferences. */
  lemma CategoryEarned(c: Character, comment: string)
    ensures Category(c, comment) != Default ==>
      exists i :: 0 <= i < |Rules| && Mentions(Lower(comment), Rules[i])
        && Category(c, comment) in Rules[i].prefs
        && forall j :: 0 <= j < i ==> !Mentions(Lower(comment), Rules[j])
  {
  }

  /** The reply is generic exactly for an unknown character, and otherwise
      names an existing line of an available category. */
  lemma ReplyInRange(name: string, comment: string, roll: real)
    requires 0.0 <= roll < 1.0
    ensures ContextualReply(name, comment, roll).Generic? <==> Persona(name).None?
    ensures match ContextualReply(name, comment, roll)
      case Generic => true
      case Line(c, t, index) => Name(c) == name && t in Topics(c) && index < Lines(c, t)
  {
    match Persona(name)
    case None =>
    case Some(c) =>
      var t := Category(c, comment);
      CategoryAvailable(c, comment);
  }

  /** Keywords are matched as substrings, so "great" mentions "eat" and the
      food rule, tried before the compliment rule, decides: a character with a
      food table answers about food, one without gets a default line. */
  lemma GreatMeansFood(comment: string)
    requires Lower(comment) == "great"
    ensures Category(Mary, comment) == Food
    ensures Category(Carl, comment) == Default
  {
    GreatFindsFoodRule(comment);
    assert Rules[3].prefs == [Food];
    assert Food in Topics(Mary) && Food !in Topics(Carl);
  }

  /** The food rule is the first rule "great" mentions. */
  lemma GreatFindsFoodRule(comment: string)
    requires Lower(comment) == "great"
    ensures FirstRule(Lower(comment), Rules, 0) == Some(3)
  {
    GreatMentionsFood();
    forall i | 0 <= i < 3 ensures !Mentions(Lower(comment), Rules[i]) {
      GreatSkips(i);
    }
  }

  lemma GreatMentionsFood()
    ensures Mentions("great", Rules[3])
  {
    assert Rules[3].keywords[2] == "eat";
    assert "great"[2..5] == "eat";
    ContainsAt("great", "eat");
    assert OccursAt("great", "eat", 2);
  }

  /** "great" mentions none of the first three rules' keywords: each has a
      letter that "great" lacks. */
  lemma GreatSkips(i: nat)
    requires i < 3
    ensures !Mentions("great", Rules[i])
  {
    forall j | 0 <= j < |Rules[i].keywords| ensures !Contains("great", Rules[i].keywords[j]) {
      var k := Rules[i].keywords[j];
      var c := if 'd' in k then 'd' else if 'p' in k then 'p' else if 'h' in k then 'h'
               else if 'c' in k then 'c' else if 'b' in k then 'b' else 'l';
      assert c in k && c !in "great";
      MissingLetter("great", k, c);
    }
  }

  /** A keyword with a letter the comment lacks is not contained in it. */
  lemma MissingLetter(s: string, k: string, c: char)
    requires c in k && c !in s
    ensures !Contains(s, k)
  {
    ContainsAt(s, k);
  }
}
