/**
 * What `parse()` does to the article list between reading the rows and
 * rendering them: reversing it for backward scrolling, and the bridge
 * "card suit" sort (`cardSuitSort`), which orders titles such as
 * "1♣ - 1♥ - 1NT" by the auction they spell.
 */
module PostProcess {
  import opened Wrappers
  import opened PhpStrings
  import opened RowMapping

  // ----- Backward scrolling -----

  /** The list is reversed when only an upper title bound is given and the order is descending. */
  predicate ScrollsBackward(titleLE: string, titleGE: string, order: string) {
    titleLE != "" && titleGE == "" && order == "descending"
  }

  /** `array_reverse`. */
  function Reversed<T>(s: seq<T>): (r: seq<T>)
    ensures |r| == |s|
    ensures forall i :: 0 <= i < |s| ==> r[i] == s[|s| - 1 - i]
  {
    if |s| == 0 then [] else [s[|s| - 1]] + Reversed(s[..|s| - 1])
  }

  /** The article list after the backward-scrolling step. */
  function Scrolled(articles: seq<Article>, titleLE: string, titleGE: string, order: string): (r: seq<Article>)
    ensures multiset(r) == multiset(articles)
  {
    ReversedMultiset(articles);
    if ScrollsBackward(titleLE, titleGE, order) then Reversed(articles) else articles
  }

  lemma {:induction false} ReversedMultiset<T>(s: seq<T>)
    ensures multiset(Reversed(s)) == multiset(s)
  {
    if |s| > 0 {
      ReversedMultiset(s[..|s| - 1]);
      assert s == s[..|s| - 1] + [s[|s| - 1]];
    }
  }

  /** Scrolling backward lists the articles last first; reversing twice restores the list. */
  lemma ScrolledOrder(articles: seq<Article>, titleLE: string, titleGE: string, order: string)
    ensures var r := Scrolled(articles, titleLE, titleGE, order);
      && |r| == |articles|
      && (ScrollsBackward(titleLE, titleGE, order) ==>
            (forall i :: 0 <= i < |r| ==> r[i] == articles[|articles| - 1 - i]) && Reversed(r) == articles)
      && (!ScrollsBackward(titleLE, titleGE, order) ==> r == articles)
  {
  }

  // ----- The sort key of one title -----

  /** `preg_replace('/.*:/', '', $t)` on a one-line text: what follows the last `c`, or all of it. */
  function AfterLast(s: string, c: char): string
    decreases |s|
  {
    if |s| == 0 || s[|s| - 1] == c then "" else AfterLast(s[..|s| - 1], c) + [s[|s| - 1]]
  }

  /** What `AfterLast` keeps is a suffix free of `c`, and the whole text or what follows a `c`. */
  lemma {:induction false} AfterLastShape(s: string, c: char)
    ensures var r := AfterLast(s, c);
      && |r| <= |s| && r == s[|s| - |r|..]
      && c !in r
      && (|r| < |s| ==> s[|s| - |r| - 1] == c)
    decreases |s|
  {
    if |s| > 0 && s[|s| - 1] != c {
      AfterLastShape(s[..|s| - 1], c);
    }
  }

  /** The leading spaces that `' *'` swallows after a " -" separator. */
  function SkipSpaces(s: string): (r: string)
    ensures |r| <= |s|
  {
    if |s| > 0 && s[0] == ' ' then SkipSpaces(s[1..]) else s
  }

  /** `preg_split` on the pattern " - *": pieces between the leftmost " -" matches, spaces after a dash dropped. */
  function Tokens(s: string): (toks: seq<string>)
    ensures |toks| >= 1
    decreases |s|
  {
    match IndexOf(s, " -")
    case None => [s]
    case Some(i) => [s[..i]] + Tokens(SkipSpaces(s[i + 2..]))
  }

  /** No token holds the " -" that separates tokens. */
  lemma {:induction false} TokensFree(s: string)
    ensures forall t :: t in Tokens(s) ==> !Contains(t, " -")
    decreases |s|
  {
    match IndexOf(s, " -")
    case None =>
    case Some(i) =>
      TokensFree(SkipSpaces(s[i + 2..]));
  }

  /** The code of the suit part of a bid: clubs to spades 1 to 4, no-trump "5 ", anything else kept. */
  function StrainCode(suit: string): string {
    if suit == "♣" then "1"
    else if suit == "♦" then "2"
    else if suit == "♥" then "3"
    else if suit == "♠" then "4"
    else if suit == "sa" || suit == "SA" || suit == "nt" || suit == "NT" then "5 "
    else suit
  }

  /**
   * The code of one token: a level 1 to 7 keeps its digit and codes its suit,
   * a pass is "0 ", a double "8 ", any other token stands for itself.
   */
  function TokenCode(tok: string): (code: string)
    ensures |tok| > 0 ==> |code| > 0
    ensures |tok| > 0 && ('1' <= tok[0] <= '7' || tok[0] in "PpXx") ==> '0' <= code[0] <= '8'
  {
    if |tok| > 0 && '1' <= tok[0] <= '7' then [tok[0]] + StrainCode(tok[1..])
    else if |tok| > 0 && (tok[0] == 'P' || tok[0] == 'p') then "0 "
    else if |tok| > 0 && (tok[0] == 'X' || tok[0] == 'x') then "8 "
    else tok
  }

  function Codes(toks: seq<string>): string {
    if |toks| == 0 then "" else TokenCode(toks[0]) + Codes(toks[1..])
  }

  /** `$newkey` of a title: the codes of the tokens after the title's last ':'. */
  function SuitKey(title: string): string {
    Codes(Tokens(AfterLast(title, ':')))
  }

  /** `"$newkey#$a"`: the key of article number `a`. */
  function Tag(newkey: string, a: nat): string {
    newkey + "#" + NatToString(a)
  }

  /** The decimal digits at the head of a text, as far as `intval` reads them. */
  function LeadingDigits(s: string): (r: string)
    ensures AllDigits(r) && |r| <= |s| && r == s[..|r|]
    ensures |r| < |s| ==> !IsDigit(s[|r|])
  {
    if |s| > 0 && IsDigit(s[0]) then [s[0]] + LeadingDigits(s[1..]) else ""
  }

  /** `intval(preg_replace('/.*#/', '', $k))`. */
  function KeyIndex(skey: string): nat {
    ParseNat(LeadingDigits(AfterLast(skey, '#')))
  }

  lemma {:induction false} AfterLastTag(head: string, c: char, tail: string)
    requires c !in tail
    ensures AfterLast(head + [c] + tail, c) == tail
    decreases |tail|
  {
    var s := head + [c] + tail;
    if |tail| > 0 {
      var init := tail[..|tail| - 1];
      assert s[..|s| - 1] == head + [c] + init;
      assert tail == init + [tail[|tail| - 1]];
      AfterLastTag(head, c, init);
    }
  }

  lemma {:induction false} LeadingAllDigits(s: string)
    requires AllDigits(s)
    ensures LeadingDigits(s) == s
  {
    if |s| > 0 {
      LeadingAllDigits(s[1..]);
    }
  }

  /** The number after the last '#' of a key reads back as the article number the key was built for. */
  lemma KeyIndexOfTag(newkey: string, a: nat)
    ensures KeyIndex(Tag(newkey, a)) == a
  {
    var digits := NatToString(a);
    assert forall i :: 0 <= i < |digits| ==> IsDigit(digits[i]);
    assert '#' !in digits;
    AfterLastTag(newkey, '#', digits);
    LeadingAllDigits(digits);
    ParseNatToString(a);
  }

  // ----- PHP sort() on the keys -----

  /** Ascending in the byte order `sort()` uses for non-numeric strings. */
  predicate Sorted(s: seq<string>) {
    forall i, j :: 0 <= i < j < |s| ==> LexLe(s[i], s[j])
  }

  predicate Distinct(s: seq<string>) {
    forall i, j :: 0 <= i < j < |s| ==> s[i] != s[j]
  }

  function Insert(x: string, s: seq<string>): (r: seq<string>)
    ensures multiset(r) == multiset(s) + multiset{x}
  {
    if |s| == 0 || LexLe(x, s[0]) then [x] + s
    else
      assert s == [s[0]] + s[1..];
      [s[0]] + Insert(x, s[1..])
  }

  /** `sort($skey)`, by insertion; with distinct keys every sorting algorithm gives this same order. */
  function SortStrings(s: seq<string>): (r: seq<string>)
    ensures multiset(r) == multiset(s)
  {
    if |s| == 0 then []
    else
      assert s == [s[0]] + s[1..];
      Insert(s[0], SortStrings(s[1..]))
  }

  lemma {:induction false} InsertSorted(x: string, s: seq<string>)
    requires Sorted(s)
    ensures Sorted(Insert(x, s))
    decreases |s|
  {
    if |s| > 0 && LexLe(x, s[0]) {
      var r := [x] + s;
      forall i, j | 0 <= i < j < |r| ensures LexLe(r[i], r[j]) {
        if i == 0 && j > 1 {
          LexLeTransitive(x, s[0], s[j - 1]);
        }
      }
    } else if |s| > 0 {
      LexLeTotal(x, s[0]);
      InsertSorted(x, s[1..]);
      var t := Insert(x, s[1..]);
      var r := [s[0]] + t;
      forall i, j | 0 <= i < j < |r| ensures LexLe(r[i], r[j]) {
        if i == 0 {
          assert r[j] == t[j - 1];
          assert r[j] in multiset(s[1..]) + multiset{x};
          if r[j] != x {
            assert r[j] in s[1..];
            var k :| 0 <= k < |s[1..]| && s[1..][k] == r[j];
            assert s[k + 1] == r[j];
          }
        } else {
          assert r[i] == t[i - 1] && r[j] == t[j - 1];
        }
      }
    }
  }

  lemma {:induction false} SortStringsSorted(s: seq<string>)
    ensures Sorted(SortStrings(s))
  {
    if |s| > 0 {
      SortStringsSorted(s[1..]);
      InsertSorted(s[0], SortStrings(s[1..]));
    }
  }

  /** A permutation of a sequence without repetitions has no repetitions either. */
  lemma DistinctPermutation(s: seq<string>, t: seq<string>)
    requires multiset(s) == multiset(t) && Distinct(t)
    ensures Distinct(s)
  {
    forall i, j | 0 <= i < j < |s| ensures s[i] != s[j] {
      if s[i] == s[j] {
        assert s == s[..j] + [s[j]] + s[j + 1..];
        assert s[i] in multiset(s[..j]);
        assert multiset(s)[s[j]] >= 2;
        AtMostOnce(t, s[j]);
      }
    }
  }

  lemma {:induction false} AtMostOnce(t: seq<string>, x: string)
    requires Distinct(t)
    ensures multiset(t)[x] <= 1
  {
    if |t| > 0 {
      assert t == [t[0]] + t[1..];
      AtMostOnce(t[1..], x);
      if t[0] == x {
        assert x !in t[1..];
      }
    }
  }

  // ----- cardSuitSort -----

  /** `$newkey` of every article, from its prefixed title text (`(string)$article->mTitle`). */
  function SuitKeys(articles: seq<Article>, host: Host): (keys: seq<string>)
    ensures |keys| == |articles|
  {
    seq(|articles|, a requires 0 <= a < |articles| => SuitKey(PrefixedText(articles[a].namespace, articles[a].dbKey, host)))
  }

  /** `$skey` before sorting. */
  function TaggedKeys(newkeys: seq<string>): (keys: seq<string>)
    ensures |keys| == |newkeys|
  {
    seq(|newkeys|, a requires 0 <= a < |newkeys| => Tag(newkeys[a], a))
  }

  /** Every key names a distinct article, so no two keys are equal. */
  lemma TaggedKeysDistinct(newkeys: seq<string>)
    ensures Distinct(TaggedKeys(newkeys))
  {
    var keys := TaggedKeys(newkeys);
    forall i, j | 0 <= i < j < |keys| ensures keys[i] != keys[j] {
      KeyIndexOfTag(newkeys[i], i);
      KeyIndexOfTag(newkeys[j], j);
    }
  }

  /** Each sorted key is the key of the article whose number it ends with. */
  lemma SortedKeysTagged(newkeys: seq<string>)
    ensures var keys := SortStrings(TaggedKeys(newkeys));
      && |keys| == |newkeys|
      && forall k :: 0 <= k < |keys| ==>
           KeyIndex(keys[k]) < |newkeys| && keys[k] == Tag(newkeys[KeyIndex(keys[k])], KeyIndex(keys[k]))
  {
    var tagged := TaggedKeys(newkeys);
    var keys := SortStrings(tagged);
    assert |keys| == |multiset(keys)| == |multiset(tagged)| == |tagged|;
    forall k | 0 <= k < |keys|
      ensures KeyIndex(keys[k]) < |newkeys| && keys[k] == Tag(newkeys[KeyIndex(keys[k])], KeyIndex(keys[k]))
    {
      assert keys[k] in multiset(keys);
      assert keys[k] in tagged;
      var a :| 0 <= a < |tagged| && tagged[a] == keys[k];
      KeyIndexOfTag(newkeys[a], a);
    }
  }

  /** The article numbers read back from the sorted keys, in sorted order. */
  function SortedIndices(newkeys: seq<string>): (idx: seq<nat>)
    ensures |idx| == |newkeys|
    ensures forall k :: 0 <= k < |idx| ==> idx[k] < |newkeys|
  {
    var keys := SortStrings(TaggedKeys(newkeys));
    SortedKeysTagged(newkeys);
    seq(|keys|, k requires 0 <= k < |keys| => KeyIndex(keys[k]))
  }

  /** The articles in card-suit order. */
  function SuitOrder(articles: seq<Article>, host: Host): (r: seq<Article>)
    ensures |r| == |articles|
  {
    var idx := SortedIndices(SuitKeys(articles, host));
    seq(|articles|, k requires 0 <= k < |articles| => articles[idx[k]])
  }

  /** The sorted positions are a permutation: no article is listed twice, and every article is listed. */
  lemma SortedIndicesPermutation(newkeys: seq<string>)
    ensures var idx := SortedIndices(newkeys);
      && (forall i, j :: 0 <= i < j < |idx| ==> idx[i] != idx[j])
      && (forall a :: 0 <= a < |newkeys| ==> a in idx)
  {
    SortedIndicesInjective(newkeys);
    SortedIndicesCover(newkeys);
  }

  lemma SortedIndicesInjective(newkeys: seq<string>)
    ensures var idx := SortedIndices(newkeys);
      forall i, j :: 0 <= i < j < |idx| ==> idx[i] != idx[j]
  {
    var tagged := TaggedKeys(newkeys);
    var keys := SortStrings(tagged);
    SortedKeysTagged(newkeys);
    TaggedKeysDistinct(newkeys);
    DistinctPermutation(keys, tagged);
  }

  lemma SortedIndicesCover(newkeys: seq<string>)
    ensures var idx := SortedIndices(newkeys);
      forall a :: 0 <= a < |newkeys| ==> a in idx
  {
    var tagged := TaggedKeys(newkeys);
    var keys := SortStrings(tagged);
    var idx := SortedIndices(newkeys);
    forall a | 0 <= a < |newkeys| ensures a in idx {
      assert tagged[a] in multiset(keys);
      var k :| 0 <= k < |keys| && keys[k] == tagged[a];
      KeyIndexOfTag(newkeys[a], a);
      assert idx[k] == a;
    }
  }

  /** Listed in card-suit order, the articles' keys ascend. */
  lemma SuitOrderSorted(newkeys: seq<string>)
    ensures var idx := SortedIndices(newkeys);
      forall i, j :: 0 <= i < j < |idx| ==> LexLe(Tag(newkeys[idx[i]], idx[i]), Tag(newkeys[idx[j]], idx[j]))
  {
    SortedKeysTagged(newkeys);
    SortStringsSorted(TaggedKeys(newkeys));
  }

  /**
   * The card-suit order is a permutation: position `k` holds the article
   * numbered by the `k`-th sorted key, no article is listed twice, and every
   * article is listed.
   */
  lemma SuitOrderPermutes(articles: seq<Article>, host: Host)
    ensures var r := SuitOrder(articles, host);
      var idx := SortedIndices(SuitKeys(articles, host));
      && |r| == |articles|
      && (forall k :: 0 <= k < |r| ==> r[k] == articles[idx[k]])
      && (forall i, j :: 0 <= i < j < |idx| ==> idx[i] != idx[j])
      && (forall a :: 0 <= a < |articles| ==> articles[a] in r)
      && (forall x :: x in r ==> x in articles)
  {
    var r := SuitOrder(articles, host);
    var idx := SortedIndices(SuitKeys(articles, host));
    SortedIndicesPermutation(SuitKeys(articles, host));
    assert forall k :: 0 <= k < |r| ==> r[k] == articles[idx[k]];
    PickedByIndices(articles, idx, r);
  }

  /** A list drawn from `s` through indices that reach every position holds exactly the elements of `s`. */
  lemma PickedByIndices<T>(s: seq<T>, idx: seq<nat>, r: seq<T>)
    requires |idx| == |r| && forall k :: 0 <= k < |idx| ==> idx[k] < |s| && r[k] == s[idx[k]]
    requires forall a :: 0 <= a < |s| ==> a in idx
    ensures forall a :: 0 <= a < |s| ==> s[a] in r
    ensures forall x :: x in r ==> x in s
  {
    forall a | 0 <= a < |s| ensures s[a] in r {
      assert a in idx;
      assert exists k :: 0 <= k < |idx| && idx[k] == a;
      var k :| 0 <= k < |idx| && idx[k] == a;
      assert r[k] == s[a];
    }
  }

  /** `cardSuitSort($articles)`: key every title, sort the keys, and list the articles in key order. */
  method CardSuitSort(articles: seq<Article>, host: Host) returns (sorted: seq<Article>)
    ensures sorted == SuitOrder(articles, host)
  {
    var skey := ArticleKeys(articles, host);
    var cArticles: seq<Article> := [];
    for a := 0 to |articles|
      invariant cArticles == articles[..a]
    {
      cArticles := cArticles + [articles[a]];
    }
    assert cArticles == articles;
    skey := SortStrings(skey);
    SortedKeysTagged(SuitKeys(articles, host));
    sorted := PlaceByKeys(articles, cArticles, skey);
  }

  /** The last loop of `cardSuitSort`: position `a` receives the copy of the article numbered by sorted key `a`. */
  method PlaceByKeys(articles: seq<Article>, cArticles: seq<Article>, skey: seq<string>) returns (sorted: seq<Article>)
    requires |skey| == |cArticles| == |articles|
    requires forall k :: 0 <= k < |skey| ==> KeyIndex(skey[k]) < |cArticles|
    ensures |sorted| == |articles|
    ensures forall k :: 0 <= k < |sorted| ==> sorted[k] == cArticles[KeyIndex(skey[k])]
  {
    sorted := articles;
    for a := 0 to |cArticles|
      invariant |sorted| == |articles|
      invariant forall k :: 0 <= k < a ==> sorted[k] == cArticles[KeyIndex(skey[k])]
    {
      var key := KeyIndex(skey[a]);
      sorted := sorted[a := cArticles[key]];
    }
  }

  /** The first loop of `cardSuitSort`: `$skey`, the tagged key of every article. */
  method ArticleKeys(articles: seq<Article>, host: Host) returns (skey: seq<string>)
    ensures skey == TaggedKeys(SuitKeys(articles, host))
  {
    ghost var newkeys := SuitKeys(articles, host);
    skey := [];
    for a := 0 to |articles|
      invariant skey == TaggedKeys(newkeys[..a])
    {
      var newkey := TitleKey(PrefixedText(articles[a].namespace, articles[a].dbKey, host));
      TaggedKeysSnoc(newkeys[..a], newkey);
      assert newkeys[..a + 1] == newkeys[..a] + [newkey];
      skey := skey + [newkey + "#" + NatToString(a)];
    }
    assert newkeys[..|articles|] == newkeys;
  }

  lemma TaggedKeysSnoc(newkeys: seq<string>, newkey: string)
    ensures TaggedKeys(newkeys + [newkey]) == TaggedKeys(newkeys) + [Tag(newkey, |newkeys|)]
  {
  }

  /** The body of the first loop of `cardSuitSort`: `$newkey` of one title. */
  method TitleKey(t: string) returns (newkey: string)
    ensures newkey == SuitKey(t)
  {
    var title := AfterLast(t, ':');
    var token := Tokens(title);
    newkey := "";
    for j := 0 to |token|
      invariant newkey == Codes(token[..j])
    {
      CodesSnoc(token[..j], token[j]);
      assert token[..j + 1] == token[..j] + [token[j]];
      newkey := newkey + TokenCode(token[j]);
    }
    assert token[..|token|] == token;
  }

  lemma {:induction false} CodesSnoc(toks: seq<string>, t: string)
    ensures Codes(toks + [t]) == Codes(toks) + TokenCode(t)
  {
    if |toks| > 0 {
      assert (toks + [t])[1..] == toks[1..] + [t];
      CodesSnoc(toks[1..], t);
    }
  }

  // ----- Auctions -----

  datatype Strain = Clubs | Diamonds | Hearts | Spades | NoTrump

  /** A call of a bridge auction: pass, a bid of a level and a strain, or double. */
  datatype Call = Pass | Bid(level: nat, strain: Strain) | Double

  predicate ValidCall(c: Call) {
    c.Bid? ==> 1 <= c.level <= 7
  }

  predicate ValidAuction(cs: seq<Call>) {
    forall i :: 0 <= i < |cs| ==> ValidCall(cs[i])
  }

  function StrainText(s: Strain): string {
    match s
    case Clubs => "♣"
    case Diamonds => "♦"
    case Hearts => "♥"
    case Spades => "♠"
    case NoTrump => "NT"
  }

  function CallText(c: Call): string
    requires ValidCall(c)
  {
    match c
    case Pass => "P"
    case Double => "X"
    case Bid(l, s) => [DigitChar(l)] + StrainText(s)
  }

  /** The bidding order: pass, 1♣ … 7NT, double. */
  function Rank(c: Call): nat
    requires ValidCall(c)
  {
    match c
    case Pass => 0
    case Bid(l, s) => 5 * (l - 1) + (match s case Clubs => 1 case Diamonds => 2 case Hearts => 3 case Spades => 4 case NoTrump => 5)
    case Double => 36
  }

  /** An auction written as a title: the calls joined by " - ". */
  function CallTexts(cs: seq<Call>): (ts: seq<string>)
    requires ValidAuction(cs)
    ensures |ts| == |cs|
  {
    if |cs| == 0 then [] else [CallText(cs[0])] + CallTexts(cs[1..])
  }

  function AuctionText(cs: seq<Call>): string
    requires ValidAuction(cs)
  {
    Join(CallTexts(cs), " - ")
  }

  /** Auction order: call by call in bidding order, a shorter auction before its continuations. */
  predicate AuctionLess(cs1: seq<Call>, cs2: seq<Call>)
    requires ValidAuction(cs1) && ValidAuction(cs2)
    decreases |cs1|
  {
    |cs2| > 0
    && (|cs1| == 0 || Rank(cs1[0]) < Rank(cs2[0]) || (cs1[0] == cs2[0] && AuctionLess(cs1[1..], cs2[1..])))
  }

  /** The code a call gets in a key. */
  function CallCode(c: Call): string
    requires ValidCall(c)
  {
    TokenCode(CallText(c))
  }

  function CallCodeSeq(cs: seq<Call>): (codes: seq<string>)
    requires ValidAuction(cs)
    ensures |codes| == |cs|
  {
    if |cs| == 0 then [] else [CallCode(cs[0])] + CallCodeSeq(cs[1..])
  }

  function Concat(codes: seq<string>): string {
    if |codes| == 0 then "" else codes[0] + Concat(codes[1..])
  }

  /** A call's code starts with a digit '0' to '8' and has at least two characters. */
  lemma CallCodeShape(c: Call)
    requires ValidCall(c)
    ensures var k := CallCode(c);
      |k| >= 2 && '0' <= k[0] <= '8'
  {
    CallCodeLead(c);
  }

  /** The first character of a call's code: its level, '0' for a pass, '8' for a double. */
  function Lead(c: Call): char
    requires ValidCall(c)
  {
    match c
    case Pass => '0'
    case Bid(l, _) => DigitChar(l)
    case Double => '8'
  }

  /** The second character of a call's code: the strain's digit for a bid, a space otherwise. */
  function Second(c: Call): char {
    match c
    case Bid(_, s) => (match s case Clubs => '1' case Diamonds => '2' case Hearts => '3' case Spades => '4' case NoTrump => '5')
    case _ => ' '
  }

  lemma CallCodeLead(c: Call)
    requires ValidCall(c)
    ensures |CallCode(c)| >= 2 && CallCode(c)[0] == Lead(c) && CallCode(c)[1] == Second(c)
  {
    if c.Bid? {
      var t := CallText(c);
      assert t[0] == DigitChar(c.level) && t[1..] == StrainText(c.strain);
    }
  }

  /** The first two characters of the codes already put two different calls in bidding order. */
  lemma CallCodeOrder(c1: Call, c2: Call)
    requires ValidCall(c1) && ValidCall(c2) && Rank(c1) < Rank(c2)
    ensures LeadLess(CallCode(c1), CallCode(c2))
  {
    CallCodeLead(c1);
    CallCodeLead(c2);
  }

  predicate LeadLess(a: string, b: string) {
    |a| >= 2 && |b| >= 2 && (a[0] < b[0] || (a[0] == b[0] && a[1] < b[1]))
  }

  /** Codes with at least two characters, the first of them above '#'. */
  predicate WellLed(codes: seq<string>) {
    forall i :: 0 <= i < |codes| ==> |codes[i]| >= 2 && codes[i][0] > '#'
  }

  /** Code sequences compared code by code on their leads, a shorter one before its continuations. */
  predicate CodeSeqLess(codes1: seq<string>, codes2: seq<string>)
    decreases |codes1|
  {
    |codes2| > 0
    && (|codes1| == 0 || LeadLess(codes1[0], codes2[0])
        || (codes1[0] == codes2[0] && CodeSeqLess(codes1[1..], codes2[1..])))
  }

  lemma {:induction false} LexLeAtDifference(a: string, b: string, j: nat)
    requires j < |a| && j < |b| && a[..j] == b[..j] && a[j] < b[j]
    ensures LexLe(a, b) && !LexLe(b, a)
    decreases j
  {
    if j > 0 {
      assert a[0] == a[..j][0] == b[..j][0] == b[0];
      assert a[1..][..j - 1] == a[..j][1..] == b[..j][1..] == b[1..][..j - 1];
      LexLeAtDifference(a[1..], b[1..], j - 1);
    }
  }

  lemma {:induction false} LexLeCommonPrefix(p: string, x: string, y: string)
    ensures LexLe(p + x, p + y) <==> LexLe(x, y)
    decreases |p|
  {
    if |p| == 0 {
      assert p + x == x && p + y == y;
    } else {
      assert (p + x)[1..] == p[1..] + x && (p + y)[1..] == p[1..] + y;
      assert (p + x)[0] == (p + y)[0];
      assert LexLe(p + x, p + y) == LexLe(p[1..] + x, p[1..] + y);
      LexLeCommonPrefix(p[1..], x, y);
    }
  }

  /** A key whose codes come earlier code by code is the strictly smaller key, whatever follows the '#'. */
  lemma {:induction false} ConcatKeysOrdered(codes1: seq<string>, codes2: seq<string>, x1: string, x2: string)
    requires WellLed(codes1) && WellLed(codes2) && CodeSeqLess(codes1, codes2)
    ensures var k1, k2 := Concat(codes1) + "#" + x1, Concat(codes2) + "#" + x2;
      LexLe(k1, k2) && !LexLe(k2, k1)
    decreases |codes1|
  {
    var k1, k2 := Concat(codes1) + "#" + x1, Concat(codes2) + "#" + x2;
    var c2, rest2 := codes2[0], Concat(codes2[1..]) + "#" + x2;
    assert k2 == c2 + rest2;
    if |codes1| == 0 {
      assert k1[0] == '#';
      LexLeAtDifference(k1, k2, 0);
    } else {
      var c1, rest1 := codes1[0], Concat(codes1[1..]) + "#" + x1;
      assert k1 == c1 + rest1;
      if LeadLess(c1, c2) {
        if c1[0] < c2[0] {
          LexLeAtDifference(k1, k2, 0);
        } else {
          assert k1[..1] == c1[..1] == c2[..1] == k2[..1];
          LexLeAtDifference(k1, k2, 1);
        }
      } else {
        ConcatKeysOrdered(codes1[1..], codes2[1..], x1, x2);
        LexLeCommonPrefix(c1, rest1, rest2);
        LexLeCommonPrefix(c1, rest2, rest1);
      }
    }
  }

  lemma {:induction false} AuctionCodesLess(cs1: seq<Call>, cs2: seq<Call>)
    requires ValidAuction(cs1) && ValidAuction(cs2) && AuctionLess(cs1, cs2)
    ensures CodeSeqLess(CallCodeSeq(cs1), CallCodeSeq(cs2))
    decreases |cs1|
  {
    if |cs1| > 0 {
      if Rank(cs1[0]) < Rank(cs2[0]) {
        CallCodeOrder(cs1[0], cs2[0]);
      } else {
        AuctionCodesLess(cs1[1..], cs2[1..]);
      }
    }
  }

  lemma {:induction false} CallCodesWellLed(cs: seq<Call>)
    requires ValidAuction(cs)
    ensures WellLed(CallCodeSeq(cs))
    decreases |cs|
  {
    if |cs| > 0 {
      CallCodeShape(cs[0]);
      CallCodesWellLed(cs[1..]);
    }
  }

  /** An auction that comes earlier in auction order has the strictly smaller key, whatever the article numbers. */
  lemma AuctionKeysOrdered(cs1: seq<Call>, cs2: seq<Call>, a1: nat, a2: nat)
    requires ValidAuction(cs1) && ValidAuction(cs2) && AuctionLess(cs1, cs2)
    ensures var k1, k2 := Tag(Concat(CallCodeSeq(cs1)), a1), Tag(Concat(CallCodeSeq(cs2)), a2);
      LexLe(k1, k2) && !LexLe(k2, k1)
  {
    AuctionCodesLess(cs1, cs2);
    CallCodesWellLed(cs1);
    CallCodesWellLed(cs2);
    ConcatKeysOrdered(CallCodeSeq(cs1), CallCodeSeq(cs2), NatToString(a1), NatToString(a2));
  }

  /** A title that is an auction, possibly after a "Namespace:" prefix. */
  predicate IsAuction(title: string, cs: seq<Call>) {
    |cs| >= 1 && ValidAuction(cs) && AfterLast(title, ':') == AuctionText(cs)
  }

  /** Pieces that `Tokens` gives back from their " - " join: none holds " -", none after the first is empty or starts with a space. */
  predicate SeparableTokens(ts: seq<string>) {
    && |ts| >= 1
    && (forall t :: t in ts ==> !Contains(t, " -"))
    && (forall t :: t in ts[1..] ==> |t| > 0 && t[0] != ' ')
  }

  lemma SeparableTail(ts: seq<string>)
    requires SeparableTokens(ts) && |ts| >= 2
    ensures SeparableTokens(ts[1..])
  {
    assert ts[1..][1..] == ts[2..];
    forall t | t in ts[2..] ensures t in ts[1..] {
      var k :| 0 <= k < |ts[2..]| && ts[2..][k] == t;
      assert ts[1..][k + 1] == t;
    }
    forall t | t in ts[1..] ensures t in ts {
      var k :| 0 <= k < |ts[1..]| && ts[1..][k] == t;
      assert ts[k + 1] == t;
    }
  }

  lemma {:induction false} IndexOfAfterFree(t: string, rest: string)
    requires !Contains(t, " -")
    ensures IndexOf(t + " - " + rest, " -") == Some(|t|)
    decreases |t|
  {
    var s := t + " - " + rest;
    if |t| == 0 {
      assert s[..2] == " -";
    } else {
      assert !StartsWith(s, " -") by {
        if |t| >= 2 {
          assert s[..2] == t[..2];
        } else {
          assert s[1] == ' ';
        }
      }
      assert !Contains(t[1..], " -");
      assert s[1..] == t[1..] + " - " + rest;
      IndexOfAfterFree(t[1..], rest);
    }
  }

  lemma TokensAt(s: string, i: nat)
    requires IndexOf(s, " -") == Some(i)
    ensures Tokens(s) == [s[..i]] + Tokens(SkipSpaces(s[i + 2..]))
  {
  }

  lemma Pieces(a: string, b: string)
    ensures (a + b)[..|a|] == a && (a + b)[|a|..] == b
  {
  }

  lemma JoinHead(ts: seq<string>, d: string)
    requires |ts| >= 1 && |ts[0]| > 0
    ensures |Join(ts, d)| > 0 && Join(ts, d)[0] == ts[0][0]
  {
  }

  /** Splitting titles glued with " - " gives the pieces back, when no piece can be mistaken for a separator. */
  lemma {:induction false} TokensJoin(ts: seq<string>)
    requires SeparableTokens(ts)
    ensures Tokens(Join(ts, " - ")) == ts
    decreases |ts|
  {
    if |ts| == 1 {
      assert Join(ts, " - ") == ts[0];
      assert ts[0] in ts;
      assert IndexOf(ts[0], " -") == None;
    } else {
      var t0, tail := ts[0], ts[1..];
      var rest := Join(tail, " - ");
      assert ts == [t0] + tail;
      JoinCons(t0, tail, " - ");
      var s := t0 + " - " + rest;
      IndexOfAfterFree(t0, rest);
      TokensAt(s, |t0|);
      AppendAssoc(t0, " - ", rest);
      AppendAssoc(" -", " ", rest);
      assert " -" + " " == " - ";
      AppendAssoc(t0, " -", " " + rest);
      Pieces(t0, " - " + rest);
      Pieces(t0 + " -", " " + rest);
      JoinHead(tail, " - ");
      assert tail[0] in ts[1..];
      assert SkipSpaces(" " + rest) == rest;
      SeparableTail(ts);
      TokensJoin(tail);
    }
  }

  lemma {:induction false} NoSpaceNoContains(s: string)
    requires ' ' !in s
    ensures !Contains(s, " -")
    decreases |s|
  {
    if |s| > 0 {
      assert s[0] in s;
      assert !StartsWith(s, " -");
      assert ' ' !in s[1..];
      NoSpaceNoContains(s[1..]);
    }
  }

  lemma {:induction false} CallTextsAt(cs: seq<Call>, i: nat)
    requires ValidAuction(cs) && i < |cs|
    ensures CallTexts(cs)[i] == CallText(cs[i])
    decreases i
  {
    if i > 0 {
      CallTextsAt(cs[1..], i - 1);
    }
  }

  lemma {:induction false} CodesOfCalls(cs: seq<Call>)
    requires ValidAuction(cs)
    ensures Codes(CallTexts(cs)) == Concat(CallCodeSeq(cs))
    decreases |cs|
  {
    if |cs| > 0 {
      assert CallTexts(cs)[1..] == CallTexts(cs[1..]);
      CodesOfCalls(cs[1..]);
    }
  }

  /** The key of an auction title is the codes of its calls. */
  lemma AuctionSuitKey(title: string, cs: seq<Call>)
    requires IsAuction(title, cs)
    ensures SuitKey(title) == Concat(CallCodeSeq(cs))
  {
    var ts := CallTexts(cs);
    forall i | 0 <= i < |ts| ensures !Contains(ts[i], " -") && |ts[i]| > 0 && ts[i][0] != ' ' {
      CallTextsAt(cs, i);
      NoSpaceNoContains(ts[i]);
    }
    forall t | t in ts ensures !Contains(t, " -") && |t| > 0 && t[0] != ' ' {
      var k :| 0 <= k < |ts| && ts[k] == t;
    }
    forall t | t in ts[1..] ensures t in ts {
      var k :| 0 <= k < |ts[1..]| && ts[1..][k] == t;
      assert ts[k + 1] == t;
    }
    TokensJoin(ts);
    CodesOfCalls(cs);
  }

  /**
   * The point of the card-suit sort: when two listed titles are auctions,
   * the earlier one never comes later in auction order.
   */
  lemma SuitOrderFollowsAuctions(articles: seq<Article>, host: Host, i: nat, j: nat, cs1: seq<Call>, cs2: seq<Call>)
    requires i < j < |articles|
    requires var r := SuitOrder(articles, host);
      IsAuction(PrefixedText(r[i].namespace, r[i].dbKey, host), cs1)
      && IsAuction(PrefixedText(r[j].namespace, r[j].dbKey, host), cs2)
    ensures !AuctionLess(cs2, cs1)
  {
    var newkeys := SuitKeys(articles, host);
    var idx := SortedIndices(newkeys);
    SuitOrderSorted(newkeys);
    var a1, a2 := idx[i], idx[j];
    assert newkeys[a1] == SuitKey(PrefixedText(articles[a1].namespace, articles[a1].dbKey, host));
    AuctionSuitKey(PrefixedText(articles[a1].namespace, articles[a1].dbKey, host), cs1);
    AuctionSuitKey(PrefixedText(articles[a2].namespace, articles[a2].dbKey, host), cs2);
    assert LexLe(Tag(newkeys[a1], a1), Tag(newkeys[a2], a2));
    if AuctionLess(cs2, cs1) {
      AuctionKeysOrdered(cs2, cs1, a2, a1);
    }
  }
}
