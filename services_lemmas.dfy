/** What `checkServices` accepts and refuses, and in which order. */
module ServicesLemmas {
  import opened Wrappers
  import opened Services

  /** `Strings` and `FromStrings` are inverse to each other. */
  lemma StringsRoundTrip(ss: seq<string>, items: seq<Json>)
    ensures AllStrings(FromStrings(ss)) && Strings(FromStrings(ss)) == ss
    ensures AllStrings(items) ==> FromStrings(Strings(items)) == items
  {
    var there := FromStrings(ss);
    assert |Strings(there)| == |ss|;
    assert forall i | 0 <= i < |ss| :: JString(Strings(there)[i]) == JString(ss[i]);
    if AllStrings(items) {
      var back := FromStrings(Strings(items));
      assert |back| == |items|;
      assert forall i | 0 <= i < |items| :: back[i] == items[i];
    }
  }

  /** `isStringArray` holds of exactly the arrays that spell a list of
      strings. */
  lemma IsStringArrayExactly(v: Json)
    ensures IsStringArray(v) <==> exists ss :: v == JArray(FromStrings(ss))
  {
    if IsStringArray(v) {
      assert v == JArray(FromStrings(Strings(v.items)));
    }
    forall ss | v == JArray(FromStrings(ss)) ensures IsStringArray(v) {
      StringsRoundTrip(ss, []);
    }
  }

  /** The wildcard branch never consults the parser, and never yields named
      services. */
  lemma ListAllSkipsParsing(input: Option<string>, parse: Parser, other: Parser, listing: Listing)
    requires ListsAll(input)
    ensures CheckServices(input, parse, listing) == CheckServices(input, other, listing)
    ensures CheckServices(input, parse, listing) ==
      if listing.Ok? then Ok(AllInCluster(listing.value)) else Err(ListingFailed(listing.error))
  {
  }

  /** Outside the wildcard, the input is accepted with a list of names exactly
      when it parses to an array holding just those names, and they are not
      none. */
  lemma AcceptsNonEmptyStringArrays(input: Option<string>, parse: Parser, listing: Listing, names: seq<string>)
    requires !ListsAll(input)
    ensures CheckServices(input, parse, listing) == Ok(Named(names)) <==>
      names != [] && parse(input.value) == Ok(JArray(FromStrings(names)))
  {
    StringsRoundTrip(names, []);
  }

  /** The checks come in order: the parser's error first, then "must contain
      only strings" for anything but an array of strings, then "cannot be
      empty" for the empty array, which passed the string check. */
  lemma RejectionOrder(input: Option<string>, parse: Parser, listing: Listing)
    requires !ListsAll(input)
    ensures var r := CheckServices(input, parse, listing);
      (r.Err? && r.error.MalformedJson? <==> parse(input.value).Err?) &&
      (parse(input.value).Err? ==> r == Err(MalformedJson(parse(input.value).error))) &&
      (r == Err(NotOnlyStrings) <==> parse(input.value).Ok? && !IsStringArray(parse(input.value).value)) &&
      (r == Err(EmptyServices) <==> parse(input.value) == Ok(JArray([]))) &&
      (r.Err? ==> !r.error.ListingFailed?)
  {
    assert IsStringArray(JArray([]));
  }
}
