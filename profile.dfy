/**
 * One result item of the people-search list and the record extracted from it:
 * the body of the `try` block that runs once per item.
 *
 * HTML parsing is not modelled. An `Item` holds what the parser's lookups
 * return for one matched `li` node: each text is the node's text with its
 * strings stripped, and `None` stands for a lookup that found no node.
 */
module Profile {
  import opened Wrappers
  import opened PyStr

  /** The ghost-marked `img` tag: its `src` and `data-ghost-url` attributes, when present. */
  datatype Img = Img(src: Option<string>, ghostUrl: Option<string>)

  /** One matched result item, as seen through the parser's lookups. */
  datatype Item = Item(
    title: Option<string>,     // text of the `h3.base-search-card__title`
    href: Option<string>,      // `href` of the nearest enclosing `a` of the title that has one
    image: Option<Img>,        // the `img` whose `data-ghost-classes` is the ghost marker
    subtitle: Option<string>,  // text of the `h4.base-search-card__subtitle`
    location: Option<string>,  // text of the `p.people-search-card__location`
    spans: seq<string>         // texts of the `span.entity-list-meta__entities-list`, in document order
  )

  /** One output row: the eight columns, "" standing for a field that was not found. */
  datatype ProfileRecord = ProfileRecord(
    firstName: string,
    lastName: string,
    profileUrl: string,
    imageUrl: string,
    profession: string,
    location: string,
    company: string,
    education: string
  )

  /** Why an item yields no record: the exception its `try` block raises. */
  datatype ExtractionError =
    | TitleNotFound  // `get_text` called on the missing title node
    | EmptyTitle     // `title[0]` on a title that has no words

  /**
   * The name rule: the last word is the last name and the words before it,
   * joined by single spaces, the first name; a one-word title is both.
   */
  function NameOf(words: seq<string>): (name: (string, string))
    requires words != []
    ensures name.1 == words[|words| - 1]
    ensures |words| == 1 ==> name.0 == name.1
    ensures |words| >= 2 ==> name.0 + " " + name.1 == Join(" ", words)
  {
    if |words| == 1 then (words[0], words[0])
    else
      var init := words[..|words| - 1];
      assert init + [words[|words| - 1]] == words;
      JoinSnoc(init, words[|words| - 1]);
      (Join(" ", init), words[|words| - 1])
  }

  /** The enclosing link's `href`, or "" when the title has no such ancestor. */
  function ProfileUrl(href: Option<string>): (url: string)
    ensures href == None ==> url == ""
    ensures href != None ==> Some(url) == href
  {
    match href
    case Some(h) => h
    case None => ""
  }

  /**
   * `image_tag.get('src') or image_tag.get('data-ghost-url', '')`, or "" with no tag:
   * a present, non-empty `src` wins; otherwise the ghost URL when present; otherwise "".
   */
  function ImageUrl(image: Option<Img>): (url: string)
    ensures url == "" || (image.Some? && (image.value.src == Some(url) || image.value.ghostUrl == Some(url)))
    ensures image.Some? && image.value.src.Some? && image.value.src.value != "" ==> Some(url) == image.value.src
    ensures image.Some? && (image.value.src == None || image.value.src == Some("")) ==>
              url == (if image.value.ghostUrl.Some? then image.value.ghostUrl.value else "")
    ensures image.None? ==> url == ""
  {
    match image
    case None => ""
    case Some(img) =>
      if img.src.Some? && img.src.value != "" then img.src.value
      else if img.ghostUrl.Some? then img.ghostUrl.value
      else ""
  }

  /** The stripped text of an optional node, or "" when the node is missing. */
  function TextOr(node: Option<string>): (text: string)
    ensures node == None ==> text == ""
    ensures node != None ==> Some(text) == node
  {
    if node.Some? then node.value else ""
  }

  /** The first entity-list span's text, or "" when there is none. */
  function Company(spans: seq<string>): (company: string)
    ensures spans == [] ==> company == ""
    ensures spans != [] ==> company == spans[0]
  {
    if spans != [] then spans[0] else ""
  }

  /**
   * The second entity-list span's text up to its first comma, or "" when
   * there are fewer than two spans. Never contains a comma.
   */
  function Education(spans: seq<string>): (education: string)
    ensures ',' !in education
    ensures |spans| < 2 ==> education == ""
    ensures |spans| >= 2 ==> education <= spans[1] && (education == spans[1] || spans[1][|education|] == ',')
  {
    if |spans| > 1 then BeforeFirstComma(spans[1]) else ""
  }

  /**
   * What the `try` block produces for one item: a record, or the reason the
   * item is skipped. Only the title can make an item fail; every other field
   * falls back to "" on its own.
   */
  function ProfileOf(item: Item): (r: Result<ProfileRecord, ExtractionError>)
    ensures r == Failure(TitleNotFound) <==> item.title.None?
    ensures r.Failure? ==> r == Failure(TitleNotFound) || r == Failure(EmptyTitle)
  {
    match item.title
    case None => Failure(TitleNotFound)
    case Some(t) =>
      var words := Split(t);
      if words == [] then Failure(EmptyTitle)
      else
        var (first, last) := NameOf(words);
        Success(ProfileRecord(first, last, ProfileUrl(item.href), ImageUrl(item.image),
                              TextOr(item.subtitle), TextOr(item.location),
                              Company(item.spans), Education(item.spans)))
  }

  /** An item that yields a record: its title node exists and has at least one word. */
  predicate WellFormed(item: Item) {
    item.title.Some? && !IsBlank(item.title.value)
  }

  /**
   * The body of the `try` block, step by step: split the title, take the
   * first and the last word, and rebuild the first name when there are more
   * than two words; then each field with its own fallback.
   */
  method ExtractProfile(profile: Item) returns (r: Result<ProfileRecord, ExtractionError>)
    ensures r == ProfileOf(profile)
    ensures r.Success? <==> WellFormed(profile)
  {
    if profile.title.None? {
      return Failure(TitleNotFound);
    }
    var title := Split(profile.title.value);
    SplitEmptyIffBlank(profile.title.value);
    if |title| == 0 {
      return Failure(EmptyTitle);
    }
    var firstName := title[0];
    var lastName := title[|title| - 1];
    if |title| > 2 {
      firstName := Join(" ", title[..|title| - 1]);
      lastName := title[|title| - 1];
    }
    assert |title| == 2 ==> title[..1] == [title[0]];
    var profileUrl := ProfileUrl(profile.href);
    var imageUrl := ImageUrl(profile.image);
    var subtitle := TextOr(profile.subtitle);
    var location := TextOr(profile.location);
    var company := Company(profile.spans);
    var college := Education(profile.spans);
    r := Success(ProfileRecord(firstName, lastName, profileUrl, imageUrl, subtitle, location, company, college));
  }

  /** An item is skipped exactly when its title node is missing or its title is blank. */
  lemma SkippedIff(item: Item)
    ensures ProfileOf(item).Failure? <==> item.title.None? || IsBlank(item.title.value)
    ensures ProfileOf(item) == Failure(TitleNotFound) <==> item.title.None?
  {
    if item.title.Some? {
      SplitEmptyIffBlank(item.title.value);
    }
  }

  /**
   * The name split loses no word and adds none: the last name is one word of
   * the title, the final one; with two or more words the first name splits
   * back into all the others, and first and last name together into the
   * whole title; a one-word title is both names.
   */
  lemma NameSplitFaithful(item: Item)
    requires WellFormed(item)
    ensures ProfileOf(item).Success?
    ensures var r, words := ProfileOf(item).value, Split(item.title.value);
      && IsToken(r.lastName)
      && r.lastName == words[|words| - 1]
      && (|words| == 1 ==> r.firstName == r.lastName == words[0])
      && (|words| >= 2 ==> r.firstName == Join(" ", words[..|words| - 1])
                           && r.firstName + " " + r.lastName == Join(" ", words)
                           && Split(r.firstName) == words[..|words| - 1]
                           && Split(r.firstName + " " + r.lastName) == words)
  {
    var words := Split(item.title.value);
    SplitEmptyIffBlank(item.title.value);
    var r := ProfileOf(item).value;
    if |words| >= 2 {
      var init := words[..|words| - 1];
      SplitJoinRoundTrip(init);
      assert init + [words[|words| - 1]] == words;
      JoinSnoc(init, words[|words| - 1]);
      SplitJoinRoundTrip(words);
    }
  }

  /** Joining with a separator one more part at the end. */
  lemma {:induction false} JoinSnoc(parts: seq<string>, last: string)
    requires parts != []
    ensures Join(" ", parts + [last]) == Join(" ", parts) + " " + last
    decreases |parts|
  {
    if |parts| > 1 {
      assert (parts + [last])[1..] == parts[1..] + [last];
      JoinSnoc(parts[1..], last);
    }
  }

  /**
   * Each field falls back to "" on its own: a missing link, image, subtitle,
   * location or entity-list span empties its own column and does not make
   * the item fail; a single span is the company and leaves education empty.
   */
  lemma MissingFieldsFallBack(item: Item)
    requires WellFormed(item)
    ensures ProfileOf(item).Success?
    ensures var r := ProfileOf(item).value;
      && (item.href == None ==> r.profileUrl == "")
      && (item.image == None ==> r.imageUrl == "")
      && (item.subtitle == None ==> r.profession == "")
      && (item.location == None ==> r.location == "")
      && (item.spans == [] ==> r.company == "" && r.education == "")
      && (|item.spans| == 1 ==> r.company == item.spans[0] && r.education == "")
      && ',' !in r.education
      && r.profileUrl == ProfileUrl(item.href)
      && r.imageUrl == ImageUrl(item.image)
      && r.profession == TextOr(item.subtitle)
      && r.location == TextOr(item.location)
      && r.company == Company(item.spans)
      && r.education == Education(item.spans)
  {
    SplitEmptyIffBlank(item.title.value);
  }

  /** Two items with the same title give records with the same names, whatever their other fields. */
  lemma NamesDependOnTitleOnly(a: Item, b: Item)
    requires a.title == b.title
    ensures ProfileOf(a).Success? <==> ProfileOf(b).Success?
    ensures ProfileOf(a).Success? ==>
      ProfileOf(a).value.firstName == ProfileOf(b).value.firstName &&
      ProfileOf(a).value.lastName == ProfileOf(b).value.lastName
  {
  }

  /** "Jane Doe" gives first name "Jane" and last name "Doe". */
  lemma TwoWordName(item: Item)
    requires item.title == Some("Jane Doe")
    ensures ProfileOf(item).Success?
    ensures ProfileOf(item).value.firstName == "Jane" && ProfileOf(item).value.lastName == "Doe"
  {
    assert "Jane Doe" == Join(" ", ["Jane", "Doe"]);
    SplitJoinRoundTrip(["Jane", "Doe"]);
  }

  /** "Jane Q Doe" gives first name "Jane Q" and last name "Doe". */
  lemma ThreeWordName(item: Item)
    requires item.title == Some("Jane Q Doe")
    ensures ProfileOf(item).Success?
    ensures ProfileOf(item).value.firstName == "Jane Q" && ProfileOf(item).value.lastName == "Doe"
  {
    var words := ["Jane", "Q", "Doe"];
    SplitThreeWords(words);
    NameOfThreeWords(words);
  }

  /** The name rule on the words of "Jane Q Doe". */
  lemma NameOfThreeWords(words: seq<string>)
    requires words == ["Jane", "Q", "Doe"]
    ensures NameOf(words) == ("Jane Q", "Doe")
  {
    assert words[..2] == ["Jane", "Q"];
    assert Join(" ", ["Jane", "Q"]) == "Jane Q" by { assert ["Jane", "Q"][1..] == ["Q"]; }
  }

  /** The words of "Jane Q Doe". */
  lemma SplitThreeWords(words: seq<string>)
    requires words == ["Jane", "Q", "Doe"]
    ensures Split("Jane Q Doe") == words
  {
    assert IsToken(words[0]) && IsToken(words[1]) && IsToken(words[2]);
    assert Join(" ", words[1..]) == "Q Doe" by { assert words[1..][1..] == ["Doe"]; }
    assert "Jane Q Doe" == Join(" ", words);
    SplitJoinRoundTrip(words);
  }

  /** A one-word title "Madonna" is both the first and the last name. */
  lemma OneWordName(item: Item)
    requires item.title == Some("Madonna")
    ensures ProfileOf(item).Success?
    ensures ProfileOf(item).value.firstName == "Madonna" && ProfileOf(item).value.lastName == "Madonna"
  {
    SplitToken("Madonna");
  }
}
