/**
  The lost-item search: the fixed two-record catalog and the case-insensitive
  substring filter run when a search completes.
 */
module Matcher {
  import opened Seqs
  import opened Text

  /** One found item of the catalog. */
  datatype Item = Item(id: int, photo: string, description: string, location: string, date: string)

  // Each description is written as two literals joined by `+`: the value is
  // the catalog's text, and each half is short enough for the verifier to
  // read character by character.

  /** The first record of the hard-coded catalog: a wallet. */
  const Wallet := Item(1, "https://placehold.co/400x300",
                       "Черный кошелек с документами, " + "найден на станции Пушкинская",
                       "Пушкинская", "2023-09-15")

  /** The second record of the hard-coded catalog: an umbrella. */
  const Umbrella := Item(2, "https://placehold.co/400x300",
                         "Синий зонт, найден на " + "платформе Курская",
                         "Курская", "2023-09-18")

  /** The hard-coded catalog the search runs over. */
  const MockResults: seq<Item> := [Wallet, Umbrella]

  /** An item matches when its lower-cased description or its lower-cased
      location contains the lower-cased query. */
  predicate Matches(query: string, item: Item)
    ensures Matches(query, item) ==> |query| <= |item.description| || |query| <= |item.location|
  {
    Contains(Lower(item.description), Lower(query)) || Contains(Lower(item.location), Lower(query))
  }

  /** Matching ignores the case of the query: a query and its lower-cased
      form match the same items. */
  lemma MatchIgnoresCase(query: string, item: Item)
    ensures Matches(Lower(query), item) == Matches(query, item)
  {
    LowerIdempotent(query);
  }

  /** The items of `catalog` that match `query`. */
  function Search(query: string, catalog: seq<Item>): (r: seq<Item>)
    ensures forall i :: 0 <= i < |r| ==> r[i] in catalog && Matches(query, r[i])
    ensures forall i :: 0 <= i < |catalog| && Matches(query, catalog[i]) ==> catalog[i] in r
    ensures IsSubsequence(r, catalog)
  {
    FilterIsSubsequence(MatchesQuery(query), catalog);
    Filter(MatchesQuery(query), catalog)
  }

  /** `Matches` with the query fixed, as the callback handed to the filter. */
  function MatchesQuery(query: string): Item -> bool {
    item => Matches(query, item)
  }

  /** The empty query matches every item, so it returns the whole catalog. */
  lemma SearchEmptyQuery(catalog: seq<Item>)
    ensures Search([], catalog) == catalog
  {
    forall i | 0 <= i < |catalog| ensures MatchesQuery([])(catalog[i]) {
      ContainsEmpty(Lower(catalog[i].description));
    }
    FilterOfAllPassing(MatchesQuery([]), catalog);
  }

  /** On a two-item catalog the search keeps each item exactly when it
      matches. */
  lemma SearchPair(query: string, a: Item, b: Item)
    ensures Search(query, [a, b]) ==
            (if Matches(query, a) then [a] else []) + (if Matches(query, b) then [b] else [])
  {
    var p := MatchesQuery(query);
    assert [a, b][1..] == [b];
    assert [b][1..] == [];
    assert Filter(p, [b]) == (if p(b) then [b] else []) + Filter(p, []);
  }

  // Single facts about the catalog texts, one per lemma: each description
  // is read in its two halves (and "Курская" and the wallet's description
  // at the indices the proofs below need), pieces short enough for the
  // verifier to check character by character.

  lemma WalletHeadLatin()
    ensures var p := "Черный кошелек с документами, "; 'z' !in p && 'Z' !in p
  {
  }

  lemma WalletHeadYa()
    ensures var p := "Черный кошелек с документами, "; 'я' !in p && 'Я' !in p
  {
  }

  lemma WalletTailEnd()
    ensures "найден на станции Пушкинская" == "найден на станции Пушкинска" + "я"
  {
  }

  lemma WalletTailLatin()
    ensures var p := "найден на станции Пушкинска"; 'z' !in p && 'Z' !in p
  {
  }

  lemma WalletTailYa()
    ensures var p := "найден на станции Пушкинска"; 'я' !in p && 'Я' !in p
  {
  }

  /** The wallet's description has no 'z' and, before its final character,
      no 'я', in either case. */
  lemma WalletLetters()
    ensures 'z' !in Wallet.description && 'Z' !in Wallet.description
    ensures forall j :: 0 <= j < |Wallet.description| - 1 ==>
              Wallet.description[j] != 'я' && Wallet.description[j] != 'Я'
  {
    WalletHeadLatin();
    WalletHeadYa();
    WalletTailEnd();
    WalletTailLatin();
    WalletTailYa();
    var head, body := "Черный кошелек с документами, ", "найден на станции Пушкинска";
    assert Wallet.description == head + (body + "я");
    forall j | 0 <= j < |Wallet.description| - 1
      ensures Wallet.description[j] != 'я' && Wallet.description[j] != 'Я'
    {
      if j < |head| {
        assert Wallet.description[j] == head[j];
        assert head[j] in head;
      } else {
        assert Wallet.description[j] == body[j - |head|];
        assert body[j - |head|] in body;
      }
    }
  }

  lemma UmbrellaHeadSha()
    ensures var p := "Синий зонт, найден на "; 'ш' !in p && 'Ш' !in p
  {
  }

  lemma UmbrellaHeadLatin()
    ensures var p := "Синий зонт, найден на "; 'z' !in p && 'Z' !in p
  {
  }

  lemma UmbrellaTailSha()
    ensures var p := "платформе Курская"; 'ш' !in p && 'Ш' !in p
  {
  }

  lemma UmbrellaTailLatin()
    ensures var p := "платформе Курская"; 'z' !in p && 'Z' !in p
  {
  }

  /** The umbrella's description has neither 'ш' nor 'z', in either case. */
  lemma UmbrellaLetters()
    ensures 'ш' !in Umbrella.description && 'Ш' !in Umbrella.description
    ensures 'z' !in Umbrella.description && 'Z' !in Umbrella.description
  {
    UmbrellaHeadSha();
    UmbrellaHeadLatin();
    UmbrellaTailSha();
    UmbrellaTailLatin();
  }

  /** "кошелек" occurs in the wallet's description. */
  lemma WalletQueryFindsWallet()
    ensures Matches("кошелек", Wallet)
  {
    var pre, post := "Черный ", " с документами, " + "найден на станции Пушкинская";
    assert "Черный кошелек с документами, " == pre + "кошелек" + " с документами, ";
    assert Wallet.description == pre + "кошелек" + post;
    LowerAppend(pre + "кошелек", post);
    LowerAppend(pre, "кошелек");
    ContainsInfix(Lower(pre), Lower("кошелек"), Lower(post));
  }

  /** The catalog's two records have distinct ids, and each names its own
      station in its description, so a search for a record's station finds
      that record. */
  lemma CatalogRecords()
    ensures MockResults == [Wallet, Umbrella] && Wallet.id != Umbrella.id
    ensures forall i :: 0 <= i < |MockResults| ==>
              Contains(MockResults[i].description, MockResults[i].location)
    ensures forall i :: 0 <= i < |MockResults| ==> Matches(MockResults[i].location, MockResults[i])
  {
    var wHead, wRest := "Черный кошелек с документами, ", "найден на станции ";
    assert "найден на станции Пушкинская" == wRest + "Пушкинская";
    assert Wallet.description == (wHead + wRest) + Wallet.location + [];
    ContainsInfix(wHead + wRest, Wallet.location, []);
    var uHead, uRest := "Синий зонт, найден на ", "платформе ";
    assert "платформе Курская" == uRest + "Курская";
    assert Umbrella.description == (uHead + uRest) + Umbrella.location + [];
    ContainsInfix(uHead + uRest, Umbrella.location, []);
    ContainsSelf(Lower(Wallet.location));
    ContainsSelf(Lower(Umbrella.location));
  }

  /** "кошелек" has an 'ш', which the umbrella's texts lack. */
  lemma WalletQuerySkipsUmbrella()
    ensures !Matches("кошелек", Umbrella)
  {
    UmbrellaLetters();
    AbsentLetter(Umbrella.description, "кошелек", 2, 'ш', 'Ш');
    AbsentLetter(Umbrella.location, "кошелек", 2, 'ш', 'Ш');
  }

  /** "Курская" is the umbrella's station. */
  lemma StationQueryFindsUmbrella()
    ensures Matches("Курская", Umbrella)
  {
    ContainsSelf(Lower(Umbrella.location));
  }

  /** "Курская" has an 'р', which "Пушкинская" lacks. */
  lemma StationQuerySkipsPushkinskaya()
    ensures !Contains(Lower(Wallet.location), Lower("Курская"))
  {
    AbsentLetter(Wallet.location, "Курская", 2, 'р', 'Р');
  }

  /** The letters of the lower-cased query "Курская" that the proof of
      `StationQuerySkipsWallet` compares. */
  lemma StationQueryLetters()
    ensures |Lower("Курская")| == 7
    ensures Lower("Курская")[1] == 'у' && Lower("Курская")[6] == 'я'
  {
  }

  /** The length of the wallet's description and its letter five places
      before the end. */
  lemma WalletDescriptionLetters()
    ensures |Wallet.description| == 58 && Wallet.description[52] == 'и'
  {
  }

  /** A string in which `t`'s last character appears only at the very end
      can contain `t` only as a suffix. */
  lemma OnlyAsSuffix(s: string, t: string)
    requires 0 < |t| <= |s|
    requires forall j :: 0 <= j < |s| - 1 ==> s[j] != t[|t| - 1]
    requires Contains(s, t)
    ensures OccursAt(s, t, |s| - |t|)
  {
    var i :| 0 <= i <= |s| - |t| && OccursAt(s, t, i);
    OccursAtChar(s, t, i, |t| - 1);
  }

  /** "Курская" occurs nowhere in the wallet: the station name has an 'р',
      which "Пушкинская" lacks; and the description has the query's last
      letter 'я' only as its own final character, where the letter five
      places before would have to be 'у' but is 'и'. */
  lemma StationQuerySkipsWallet()
    ensures !Matches("Курская", Wallet)
  {
    StationQuerySkipsPushkinskaya();
    StationQueryLetters();
    WalletDescriptionLetters();
    var d, q := Lower(Wallet.description), Lower("Курская");
    WalletLetters();
    assert forall j :: 0 <= j < |d| - 1 ==> d[j] != q[|q| - 1];
    if Contains(d, q) {
      OnlyAsSuffix(d, q);
      OccursAtChar(d, q, |d| - |q|, 1);
      assert false;
    }
  }

  /** A Latin query finds nothing in the Cyrillic catalog. */
  lemma LatinQuerySkipsWallet()
    ensures !Matches("zzz", Wallet)
  {
    WalletLetters();
    AbsentLetter(Wallet.description, "zzz", 0, 'z', 'Z');
    AbsentLetter(Wallet.location, "zzz", 0, 'z', 'Z');
  }

  lemma LatinQuerySkipsUmbrella()
    ensures !Matches("zzz", Umbrella)
  {
    UmbrellaLetters();
    AbsentLetter(Umbrella.description, "zzz", 0, 'z', 'Z');
    AbsentLetter(Umbrella.location, "zzz", 0, 'z', 'Z');
  }

  /** The worked examples on the catalog. */
  lemma MockSearchExamples()
    ensures Search("кошелек", MockResults) == [Wallet]
    ensures Search("Курская", MockResults) == [Umbrella]
    ensures Search("zzz", MockResults) == []
    ensures Search("", MockResults) == MockResults
  {
    WalletQueryFindsWallet();
    WalletQuerySkipsUmbrella();
    StationQueryFindsUmbrella();
    StationQuerySkipsWallet();
    LatinQuerySkipsWallet();
    LatinQuerySkipsUmbrella();
    SearchPair("кошелек", Wallet, Umbrella);
    SearchPair("Курская", Wallet, Umbrella);
    SearchPair("zzz", Wallet, Umbrella);
    SearchEmptyQuery(MockResults);
  }
}
