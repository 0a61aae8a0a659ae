/**
 The search address the search flow starts from: the keyword with spaces
 written `%20` and then lower-cased, the location with spaces written `%20`
 and its case kept, and the connection degree mapped to the platform's
 network facet code.
 */
module SearchUrl {
  import opened Text

  const SearchBase := "https://www.linkedin.com/search/results/people/?keywords="
  const DegreeNames: seq<string> := ["1st", "2nd", "3rd"]

  /** The network facet for a degree, looked up exactly as typed; anything
      else maps to the empty facet. */
  function NetworkCode(degree: string): (code: string)
    ensures degree == "1st" ==> code == "%5B%22F%22%5D"
    ensures degree == "2nd" ==> code == "%5B%22S%22%5D"
    ensures degree == "3rd" ==> code == "%5B%22O%22%5D"
    ensures code != "" <==> degree in DegreeNames
  {
    var mapping := map["1st" := "%5B%22F%22%5D", "2nd" := "%5B%22S%22%5D", "3rd" := "%5B%22O%22%5D"];
    if degree in mapping then mapping[degree] else ""
  }

  /** The entry check: the degree, lower-cased, is one of the three names. */
  predicate DegreeAccepted(degree: string)
  {
    Lower(degree) in DegreeNames
  }

  /* ---------------------------------------------------------------------
     Spaces as %20
     --------------------------------------------------------------------- */

  /** `s.replace(' ', '%20')`. */
  function EncodeSpaces(s: string): string
  {
    Replace(s, " ", "%20")
  }

  /** Reading `%20` back as a space, left to right. */
  function DecodeSpaces(s: string): string
    decreases |s|
  {
    if |s| >= 3 && s[..3] == "%20" then " " + DecodeSpaces(s[3..])
    else if |s| == 0 then ""
    else [s[0]] + DecodeSpaces(s[1..])
  }

  /** Encoding works character by character: a space becomes `%20`, every
      other character stays. */
  lemma {:induction false} EncodeSpacesCharwise(s: string)
    ensures |s| > 0 && s[0] == ' ' ==> EncodeSpaces(s) == "%20" + EncodeSpaces(s[1..])
    ensures |s| > 0 && s[0] != ' ' ==> EncodeSpaces(s) == [s[0]] + EncodeSpaces(s[1..])
    ensures ' ' !in EncodeSpaces(s)
    ensures '%' !in s ==> DecodeSpaces(EncodeSpaces(s)) == s
    decreases |s|
  {
    if |s| > 0 {
      EncodeSpacesHead(s);
      EncodeSpacesCharwise(s[1..]);
      var tail := EncodeSpaces(s[1..]);
      if s[0] == ' ' {
        assert ("%20" + tail)[..3] == "%20";
        assert ("%20" + tail)[3..] == tail;
      } else if '%' !in s {
        var e := [s[0]] + tail;
        assert e[0] != '%';
        assert e[1..] == tail;
        assert '%' !in s[1..];
      }
      assert s == [s[0]] + s[1..];
    }
  }

  /** One step of the encoding: the first character, then the rest. */
  lemma EncodeSpacesHead(s: string)
    requires |s| > 0
    ensures s[0] == ' ' ==> EncodeSpaces(s) == "%20" + EncodeSpaces(s[1..])
    ensures s[0] != ' ' ==> EncodeSpaces(s) == [s[0]] + EncodeSpaces(s[1..])
  {
    if s[0] == ' ' {
      assert s[..1] == " ";
    } else {
      assert s[..1] != " ";
    }
  }

  /** Lower-casing after encoding is encoding after lower-casing: `%20`
      holds no letter. */
  lemma {:induction false} LowerCommutesWithEncoding(s: string)
    ensures Lower(EncodeSpaces(s)) == EncodeSpaces(Lower(s))
    decreases |s|
  {
    if |s| > 0 {
      EncodeSpacesCharwise(s);
      EncodeSpacesCharwise(Lower(s));
      LowerCommutesWithEncoding(s[1..]);
      CaseConversionKeepsLetter(s[0]);
      assert Lower(s)[1..] == Lower(s[1..]);
      var tail := EncodeSpaces(s[1..]);
      if s[0] == ' ' {
        assert Lower("%20" + tail) == Lower("%20") + Lower(tail) by {
          LowerAppend("%20", tail);
        }
      } else {
        LowerAppend([s[0]], tail);
      }
    }
  }

  lemma {:induction false} LowerAppend(a: string, b: string)
    ensures Lower(a + b) == Lower(a) + Lower(b)
    decreases |a|
  {
    if |a| > 0 {
      assert (a + b)[1..] == a[1..] + b;
      LowerAppend(a[1..], b);
    } else {
      assert a + b == b;
    }
  }

  /** The keyword field: spaces encoded, then lower-cased; in other words
      the lower-cased keyword's space-separated pieces joined by `%20`. */
  function KeywordField(keyword: string): (field: string)
    ensures field == Join("%20", SplitOn(Lower(keyword), " "))
    ensures ' ' !in field
    ensures forall i :: 0 <= i < |field| ==> !IsUpper(field[i])
    ensures '%' !in keyword ==> DecodeSpaces(field) == Lower(keyword)
  {
    EncodedLowerKeyword(keyword);
    Lower(EncodeSpaces(keyword))
  }

  /** Encoding then lower-casing is lower-casing then encoding, so the
      keyword field is the encoded lower-cased keyword. */
  lemma EncodedLowerKeyword(keyword: string)
    ensures var field := Lower(EncodeSpaces(keyword));
      && field == EncodeSpaces(Lower(keyword))
      && field == Join("%20", SplitOn(Lower(keyword), " "))
      && ' ' !in field
      && ('%' !in keyword ==> DecodeSpaces(field) == Lower(keyword))
  {
    LowerCommutesWithEncoding(keyword);
    EncodeSpacesCharwise(Lower(keyword));
    ReplaceIsJoinOfSplit(Lower(keyword), " ", "%20");
    LowerKeepsUncased(keyword, '%');
  }

  /** Lower-casing neither adds nor removes a character that has no case. */
  lemma LowerKeepsUncased(s: string, c: char)
    requires !IsCased(c)
    ensures c in Lower(s) <==> c in s
  {
    if c in s {
      var i :| 0 <= i < |s| && s[i] == c;
      assert Lower(s)[i] == c;
    }
    if c in Lower(s) {
      var i :| 0 <= i < |s| && Lower(s)[i] == c;
      assert s[i] == c;
    }
  }

  /** Encoding spaces neither adds nor removes an `&`. */
  lemma {:induction false} EncodeKeepsAmpersand(s: string)
    ensures '&' in EncodeSpaces(s) <==> '&' in s
    decreases |s|
  {
    if |s| > 0 {
      EncodeSpacesCharwise(s);
      EncodeKeepsAmpersand(s[1..]);
      assert s == [s[0]] + s[1..];
    }
  }

  /** The location field: spaces encoded, case kept; in other words the
      location's space-separated pieces joined by `%20`. */
  function LocationField(location: string): (field: string)
    ensures field == Join("%20", SplitOn(location, " "))
    ensures ' ' !in field
    ensures '%' !in location ==> DecodeSpaces(field) == location
  {
    EncodedLocation(location);
    EncodeSpaces(location)
  }

  /** The encoded location, read as a join and as an escape of spaces. */
  lemma EncodedLocation(location: string)
    ensures var field := EncodeSpaces(location);
      && field == Join("%20", SplitOn(location, " "))
      && ' ' !in field
      && ('%' !in location ==> DecodeSpaces(field) == location)
  {
    EncodeSpacesCharwise(location);
    ReplaceIsJoinOfSplit(location, " ", "%20");
  }

  /** Everything after `?keywords=`: the keyword and location fields, the
      network facet `code` and the fixed origin marker. */
  function SearchQuery(keyword: string, location: string, code: string): (query: string)
    ensures ' ' !in code ==> ' ' !in query
    ensures |query| == |KeywordField(keyword)| + |LocationField(location)| + |code| + 42
  {
    var k := KeywordField(keyword);
    var l := LocationField(location);
    assert ' ' !in "&locations=" && ' ' !in "&network=" && ' ' !in "&origin=FACETED_SEARCH";
    k + "&locations=" + l + "&network=" + code + "&origin=FACETED_SEARCH"
  }

  /** Read back by cutting at `&`, the query gives the keyword field, then
      the location, network and origin parameters, in that order, whenever
      no part holds an `&` of its own. */
  lemma SearchQueryParts(keyword: string, location: string, code: string)
    requires '&' !in keyword && '&' !in location && '&' !in code
    ensures SplitOn(SearchQuery(keyword, location, code), "&")
         == [KeywordField(keyword), "locations=" + LocationField(location),
             "network=" + code, "origin=FACETED_SEARCH"]
  {
    LowerCommutesWithEncoding(keyword);
    EncodeKeepsAmpersand(keyword);
    LowerKeepsUncased(EncodeSpaces(keyword), '&');
    EncodeKeepsAmpersand(location);
    QueryCutsAtAmpersands(KeywordField(keyword), LocationField(location), code);
  }

  /** The query, seen as its four parts with an `&` between each two,
      cuts back into those parts when none of them holds an `&`. */
  lemma QueryCutsAtAmpersands(k: string, l: string, code: string)
    requires '&' !in k && '&' !in l && '&' !in code
    ensures SplitOn(k + "&locations=" + l + "&network=" + code + "&origin=FACETED_SEARCH", "&")
         == [k, "locations=" + l, "network=" + code, "origin=FACETED_SEARCH"]
  {
    var locations, network, origin := "locations=" + l, "network=" + code, "origin=FACETED_SEARCH";
    QueryParts(k, l, code);
    assert '&' !in locations && '&' !in network && '&' !in origin by {
      assert forall i :: 0 <= i < |"locations="| ==> "locations="[i] != '&';
      assert forall i :: 0 <= i < |"network="| ==> "network="[i] != '&';
    }
    SplitAtSeparators(k, locations, network, origin, '&');
  }

  /** The query written out as four parts joined by single `&`s. */
  lemma QueryParts(k: string, l: string, code: string)
    ensures k + "&locations=" + l + "&network=" + code + "&origin=FACETED_SEARCH"
         == k + ['&'] + (("locations=" + l) + ['&'] + (("network=" + code) + ['&'] + "origin=FACETED_SEARCH"))
  {
    assert "&locations=" == ['&'] + "locations=";
    assert "&network=" == ['&'] + "network=";
    assert "&origin=FACETED_SEARCH" == ['&'] + "origin=FACETED_SEARCH";
  }

  /** Four separator-free parts joined by a one-character separator cut back
      into those four parts. */
  lemma SplitAtSeparators(a: string, b: string, c: string, d: string, sep: char)
    requires sep !in a && sep !in b && sep !in c && sep !in d
    ensures SplitOn(a + [sep] + (b + [sep] + (c + [sep] + d)), [sep]) == [a, b, c, d]
  {
    SplitWithoutSeparator(d, sep);
    SplitAtFirstSeparator(c, sep, d);
    SplitAtFirstSeparator(b, sep, c + [sep] + d);
    SplitAtFirstSeparator(a, sep, b + [sep] + (c + [sep] + d));
  }


  /** The search address built by the entry point: the people-search base
      followed by a query with no raw space in it. */
  function SearchAddress(degree: string, keyword: string, location: string): (url: string)
    ensures SearchBase <= url && ' ' !in url[|SearchBase|..]
  {
    var code := NetworkCode(degree);
    assert ' ' !in code;
    var query := SearchQuery(keyword, location, code);
    assert (SearchBase + query)[|SearchBase|..] == query;
    SearchBase + query
  }

  /** The query carries the keyword field, the location field and the
      network facet of the degree, in that order, for every input; the
      fields decode to the lower-cased keyword and the location as typed
      when they hold no `%` of their own. */
  lemma SearchAddressFields(degree: string, keyword: string, location: string)
    ensures var k := KeywordField(keyword);
      var l := LocationField(location);
      && SearchAddress(degree, keyword, location)
         == SearchBase + (k + "&locations=" + l + "&network=" + NetworkCode(degree) + "&origin=FACETED_SEARCH")
      && ('%' !in keyword ==> DecodeSpaces(k) == Lower(keyword))
      && ('%' !in location ==> DecodeSpaces(l) == location)
  {
  }

  /* ---------------------------------------------------------------------
     The degree lookup is case-sensitive
     --------------------------------------------------------------------- */

  /** "1ST" passes the entry check, which lower-cases, but the lookup does
      not lower-case and finds no network facet: the search then runs with
      no degree filter at all. */
  lemma UppercaseDegreeLosesFilter()
    ensures DegreeAccepted("1ST")
    ensures NetworkCode("1ST") == ""
    ensures SearchAddress("1ST", "", "") != SearchAddress("1st", "", "")
  {
    assert Lower("1ST") == "1st";
    var a := SearchAddress("1ST", "", "");
    var b := SearchAddress("1st", "", "");
    assert |a| != |b|;
  }

  /** The lookup as the entry check implies it: on the lower-cased degree. */
  function FoldedNetworkCode(degree: string): (code: string)
    ensures code != "" <==> DegreeAccepted(degree)
    ensures Lower(degree) == "1st" ==> code == "%5B%22F%22%5D"
    ensures Lower(degree) == "2nd" ==> code == "%5B%22S%22%5D"
    ensures Lower(degree) == "3rd" ==> code == "%5B%22O%22%5D"
    ensures degree in DegreeNames ==> code == NetworkCode(degree)
  {
    DegreeNamesAreLowerCase(degree);
    NetworkCode(Lower(degree))
  }

  lemma DegreeNamesAreLowerCase(degree: string)
    ensures degree in DegreeNames ==> Lower(degree) == degree
  {
    if degree in DegreeNames {
      assert degree == "1st" || degree == "2nd" || degree == "3rd";
    }
  }

  /** The search address with the folded lookup: any spelling of a degree
      builds the address of its lower-case spelling. */
  function IntendedSearchAddress(degree: string, keyword: string, location: string): (url: string)
    ensures url == SearchAddress(Lower(degree), keyword, location)
  {
    SearchBase + SearchQuery(keyword, location, FoldedNetworkCode(degree))
  }

  /** So every accepted degree gets its own facet, never the unfiltered
      address, and lower-case input builds the same address as before. */
  lemma IntendedAddressKeepsFacet(degree: string, keyword: string, location: string)
    ensures DegreeAccepted(degree) ==>
      IntendedSearchAddress(degree, keyword, location) != SearchAddress("", keyword, location)
    ensures degree in DegreeNames ==>
      IntendedSearchAddress(degree, keyword, location) == SearchAddress(degree, keyword, location)
  {
    var code := FoldedNetworkCode(degree);
    assert |SearchAddress("", keyword, location)| == |SearchBase| + |SearchQuery(keyword, location, "")|;
    assert IntendedSearchAddress(degree, keyword, location) == SearchBase + SearchQuery(keyword, location, code);
  }

  /** With the folded lookup "1ST" builds exactly the "1st" address, facet
      included. */
  lemma UppercaseDegreeKeepsFilter()
    ensures FoldedNetworkCode("1ST") == "%5B%22F%22%5D"
    ensures IntendedSearchAddress("1ST", "", "") == SearchAddress("1st", "", "")
  {
    assert Lower("1ST") == "1st";
  }
}
