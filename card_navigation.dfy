/** Navigation from committee cards and secretariat entries: once the press
    animation is over, a card whose slug attribute is set navigates to the
    page built from that slug; a card without one only logs a warning. */
module CardNavigation {
  import opened Wrappers

  /** The two clickable categories and the data attribute each reads:
      `data-committee` on committee cards, `data-member` on secretariat entries. */
  datatype CardKind = CommitteeCard | SecretariatMember

  /** What a click ends in. */
  datatype ClickOutcome = Navigate(path: string) | Warn(message: string)

  const Extension: string := ".html"

  function Folder(kind: CardKind): string
  {
    match kind
    case CommitteeCard => "committees/"
    case SecretariatMember => "secretariat/"
  }

  function MissingSlugWarning(kind: CardKind): string
  {
    match kind
    case CommitteeCard => "No data-committee found for this card"
    case SecretariatMember => "No data-member found for this card"
  }

  /** The page a slug leads to; the slug is interpolated verbatim. */
  function PathFor(kind: CardKind, slug: string): (path: string)
    ensures |path| == |Folder(kind)| + |slug| + |Extension|
    ensures path[..|Folder(kind)|] == Folder(kind)
    ensures path[|Folder(kind)|..|path| - |Extension|] == slug
    ensures path[|path| - |Extension|..] == Extension
  {
    Folder(kind) + slug + Extension
  }

  /** The outcome of a click on a card whose slug attribute reads `slug`
      (`None` when the attribute is absent). An empty slug is falsy in the
      source and is treated like an absent one. */
  function AfterPress(kind: CardKind, slug: Option<string>): (o: ClickOutcome)
    ensures o.Navigate? <==> slug.Some? && slug.value != ""
    ensures o.Navigate? ==> o.path == PathFor(kind, slug.value)
    ensures o.Warn? ==> o.message == MissingSlugWarning(kind)
  {
    if slug.Some? && slug.value != "" then Navigate(PathFor(kind, slug.value))
    else Warn(MissingSlugWarning(kind))
  }

  /** Reads a navigation path back into the card category and slug it came
      from, or `None` when it is not of either shape. */
  function ParsePath(path: string): (r: Option<(CardKind, string)>)
    ensures r.Some? ==> PathFor(r.value.0, r.value.1) == path
  {
    var c := Folder(CommitteeCard);
    var m := Folder(SecretariatMember);
    var e := |Extension|;
    if |path| >= |c| + e && path[..|c|] == c && path[|path| - e..] == Extension then
      Some((CommitteeCard, path[|c|..|path| - e]))
    else if |path| >= |m| + e && path[..|m|] == m && path[|path| - e..] == Extension then
      Some((SecretariatMember, path[|m|..|path| - e]))
    else
      None
  }

  /** Every path the handler builds reads back as the category and slug it
      was built from: the two folders never collide and the slug is kept whole. */
  lemma PathRoundTrip(kind: CardKind, slug: string)
    ensures ParsePath(PathFor(kind, slug)) == Some((kind, slug))
  {
    var path := PathFor(kind, slug);
    if kind == SecretariatMember {
      assert path[0] == 's';
      assert Folder(CommitteeCard)[0] == 'c';
    }
  }

  /** Distinct (category, slug) pairs build distinct path strings. The slug
      is not escaped, so the browser may still resolve two distinct strings
      (one holding `../`) to the same page. */
  lemma PathInjective(k1: CardKind, s1: string, k2: CardKind, s2: string)
    requires PathFor(k1, s1) == PathFor(k2, s2)
    ensures k1 == k2 && s1 == s2
  {
    PathRoundTrip(k1, s1);
    PathRoundTrip(k2, s2);
  }
}
