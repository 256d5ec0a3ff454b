/** The result mapping of `queryGoogleBooks` in app.js: from the first item of
    an already parsed Google Books volumes response to the five display
    strings, with fixed placeholders for missing fields. The network request
    and the JSON parsing are not part of this model; the parsed response is
    the input. */
module BookLookup {
  import opened Wrappers

  /** `volumeInfo.imageLinks`. */
  datatype ImageLinks = ImageLinks(thumbnail: Option<string>, smallThumbnail: Option<string>)

  /** `volumeInfo`; every property may be absent. */
  datatype VolumeInfo = VolumeInfo(
    title: Option<string>,
    authors: Option<seq<string>>,
    publisher: Option<string>,
    publishedDate: Option<string>,
    imageLinks: Option<ImageLinks>)

  /** One element of `items`. */
  datatype Item = Item(volumeInfo: Option<VolumeInfo>)

  /** The parsed response `j`; an element of `items` may be `null` (`None`). */
  datatype Volumes = Volumes(items: Option<seq<Option<Item>>>)

  /** The record `queryGoogleBooks` returns. */
  datatype Book = Book(title: string, authors: string, publisher: string, publishedDate: string, cover: string)

  const NoTitle: string := "(未提供書名)"
  const Unknown: string := "不詳"
  const AuthorSeparator: string := "、"

  /** A string property is truthy when it is present and not the empty string. */
  predicate Truthy(o: Option<string>) {
    o.Some? && o.value != ""
  }

  /** `o || fallback` for a string-valued property `o`. */
  function Or(o: Option<string>, fallback: string): (r: string)
    ensures Truthy(o) ==> r == o.value
    ensures !Truthy(o) ==> r == fallback
  {
    if Truthy(o) then o.value else fallback
  }

  /** The total length of the strings of `xs`. */
  function TotalLength(xs: seq<string>): nat {
    if xs == [] then 0 else |xs[0]| + TotalLength(xs[1..])
  }

  /** `Array.prototype.join`: the elements with `sep` between neighbours, so
      one separator fewer than there are elements. */
  function Join(xs: seq<string>, sep: string): (r: string)
    ensures |xs| > 0 ==> |r| == TotalLength(xs) + (|xs| - 1) * |sep|
    ensures |xs| == 0 ==> r == ""
  {
    if |xs| == 0 then ""
    else if |xs| == 1 then xs[0]
    else xs[0] + sep + Join(xs[1..], sep)
  }

  /** `j.items && j.items[0]`, when it is an object. */
  function FirstItem(j: Volumes): (r: Option<Item>)
    ensures r.Some? <==> (j.items.Some? && |j.items.value| > 0 && j.items.value[0].Some?)
    ensures r.Some? ==> r == j.items.value[0]
  {
    if j.items.Some? && |j.items.value| > 0 then j.items.value[0] else None
  }

  /** `item.volumeInfo || {}`. */
  function VolumeOf(item: Item): (v: VolumeInfo)
    ensures item.volumeInfo.Some? ==> v == item.volumeInfo.value
    ensures item.volumeInfo.None? ==>
      v.title.None? && v.authors.None? && v.publisher.None? && v.publishedDate.None? && v.imageLinks.None?
  {
    item.volumeInfo.GetOr(VolumeInfo(None, None, None, None, None))
  }

  /** `(v.authors || []).join('、') || '不詳'`. */
  function AuthorsLine(authors: Option<seq<string>>): (r: string)
    ensures r != ""
  {
    var joined := Join(authors.GetOr([]), AuthorSeparator);
    if joined != "" then joined else Unknown
  }

  /** `v.imageLinks?.thumbnail || v.imageLinks?.smallThumbnail || ''`. */
  function Cover(links: Option<ImageLinks>): (r: string)
    ensures r != "" ==>
      (links.Some? && (Some(r) == links.value.thumbnail || Some(r) == links.value.smallThumbnail))
  {
    match links
    case None => ""
    case Some(l) => Or(l.thumbnail, Or(l.smallThumbnail, ""))
  }

  /** The object literal that `queryGoogleBooks` builds from `v`. */
  function ToBook(v: VolumeInfo): (b: Book)
    ensures b.title != "" && b.authors != "" && b.publisher != "" && b.publishedDate != ""
  {
    Book(Or(v.title, NoTitle), AuthorsLine(v.authors), Or(v.publisher, Unknown),
         Or(v.publishedDate, Unknown), Cover(v.imageLinks))
  }

  /** `queryGoogleBooks` after `r.json()`: `None` plays the returned `null`. */
  function MapVolumes(j: Volumes): (r: Option<Book>)
    ensures r.None? <==> FirstItem(j).None?
    ensures r.Some? ==>
      (r.value.title != "" && r.value.authors != "" && r.value.publisher != "" && r.value.publishedDate != "")
  {
    match FirstItem(j)
    case None => None
    case Some(item) => Some(ToBook(VolumeOf(item)))
  }

  // ---------------------------------------------------------------------
  // Properties of the mapping

  /** `null` comes back exactly when there is no `items`, it is empty, or its
      first element is `null`. */
  lemma NullExactlyWithoutFirstItem(j: Volumes)
    ensures MapVolumes(j).None? <==>
      (j.items.None? || j.items.value == [] || j.items.value[0].None?)
  {
  }

  /** A joined list is empty exactly when the list is empty or is one empty
      name (with a non-empty separator). */
  lemma JoinEmptyIff(xs: seq<string>, sep: string)
    requires sep != ""
    ensures Join(xs, sep) == "" <==> (|xs| == 0 || (|xs| == 1 && xs[0] == ""))
  {
    if |xs| > 1 {
      assert |Join(xs, sep)| >= |sep|;
    }
  }

  /** Joining from the left: the list extended by one name is the old join,
      the separator, and the name. */
  lemma {:induction false} JoinSnoc(xs: seq<string>, x: string, sep: string)
    requires |xs| > 0
    ensures Join(xs + [x], sep) == Join(xs, sep) + sep + x
  {
    if |xs| == 1 {
      assert xs + [x] == [xs[0], x];
    } else {
      assert (xs + [x])[1..] == xs[1..] + [x];
      JoinSnoc(xs[1..], x, sep);
    }
  }

  /** A joined list starts with its first name and ends with its last. */
  lemma {:induction false} JoinEnds(xs: seq<string>, sep: string)
    requires |xs| > 0
    ensures var r := Join(xs, sep);
      |r| >= |xs[0]| && r[..|xs[0]|] == xs[0] &&
      |r| >= |xs[|xs| - 1]| && r[|r| - |xs[|xs| - 1]|..] == xs[|xs| - 1]
  {
    if |xs| > 1 {
      JoinEnds(xs[1..], sep);
      var rest := Join(xs[1..], sep);
      assert Join(xs, sep) == xs[0] + (sep + rest);
      assert (xs[0] + (sep + rest))[..|xs[0]|] == xs[0];
      var last := xs[|xs| - 1];
      assert xs[1..][|xs[1..]| - 1] == last;
      assert (xs[0] + sep + rest)[|xs[0] + sep + rest| - |last|..] == rest[|rest| - |last|..];
    }
  }

  /** The authors line falls back to the placeholder when the list is absent,
      empty or one empty name; otherwise it is the joined list. */
  lemma AuthorsFallback(authors: Option<seq<string>>)
    ensures authors.None? ==> AuthorsLine(authors) == Unknown
    ensures authors.Some? && (|authors.value| == 0 || (|authors.value| == 1 && authors.value[0] == ""))
      ==> AuthorsLine(authors) == Unknown
    ensures authors.Some? && |authors.value| == 1 && authors.value[0] != ""
      ==> AuthorsLine(authors) == authors.value[0]
    ensures authors.Some? && |authors.value| > 1
      ==> AuthorsLine(authors) == Join(authors.value, AuthorSeparator)
  {
    JoinEmptyIff(authors.GetOr([]), AuthorSeparator);
  }

  /** The cover is the larger thumbnail when there is one, else the small one,
      else the empty string. */
  lemma CoverPreference(links: Option<ImageLinks>)
    ensures links.Some? && Truthy(links.value.thumbnail) ==> Cover(links) == links.value.thumbnail.value
    ensures links.Some? && !Truthy(links.value.thumbnail) && Truthy(links.value.smallThumbnail)
      ==> Cover(links) == links.value.smallThumbnail.value
    ensures (links.None? || (!Truthy(links.value.thumbnail) && !Truthy(links.value.smallThumbnail)))
      <==> Cover(links) == ""
  {
  }

  /** With a first item present, each field is the item's own value when it
      has a usable one and the placeholder otherwise; a missing `volumeInfo`
      gives every placeholder. */
  lemma FieldFallbacks(j: Volumes)
    requires FirstItem(j).Some?
    ensures var b := MapVolumes(j).value; var v := VolumeOf(FirstItem(j).value);
      (b.title == NoTitle <==> (!Truthy(v.title) || v.title.value == NoTitle)) &&
      (Truthy(v.title) ==> b.title == v.title.value) &&
      (Truthy(v.publisher) ==> b.publisher == v.publisher.value) &&
      (!Truthy(v.publisher) ==> b.publisher == Unknown) &&
      (Truthy(v.publishedDate) ==> b.publishedDate == v.publishedDate.value) &&
      (!Truthy(v.publishedDate) ==> b.publishedDate == Unknown)
    ensures FirstItem(j).value.volumeInfo.None? ==>
      MapVolumes(j) == Some(Book(NoTitle, Unknown, Unknown, Unknown, ""))
  {
  }
}
