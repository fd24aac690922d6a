/** The item form of the client: its zod schema (a title of at least one
    character, optional description and tag string), the tag-string codec
    (`split(",")`, trim, drop empties on submit; `join(", ")` to prefill),
    and the payload it hands to its caller. */
module ItemForm {
  import opened Wrappers
  import opened Text

  /** A tag as the codec produces it: non-empty, trimmed, comma-free. */
  predicate WellFormedTag(t: string) {
    t != "" && Trimmed(t) && ',' !in t
  }

  /** `.map(t => t.trim()).filter(Boolean)`: the trimmed pieces that are
      not empty, in their original order. */
  function Clean(pieces: seq<string>): (r: seq<string>)
    ensures |r| <= |pieces|
    ensures forall i :: 0 <= i < |r| ==> r[i] != "" && Trimmed(r[i])
    ensures forall x :: x in r ==> exists p :: p in pieces && x == Trim(p)
  {
    if pieces == [] then []
    else
      var t := Trim(pieces[0]);
      var rest := Clean(pieces[1..]);
      assert forall x :: x in rest ==> exists p :: p in pieces && x == Trim(p) by {
        forall x | x in rest ensures exists p :: p in pieces && x == Trim(p) {
          var p :| p in pieces[1..] && x == Trim(p);
          assert p in pieces;
        }
      }
      if t == "" then rest else [t] + rest
  }

  /** One piece survives as its trim exactly when the trim is not empty. */
  lemma CleanSingle(p: string)
    ensures Clean([p]) == if Trim(p) == "" then [] else [Trim(p)]
  {
    assert [p][1..] == [];
  }

  /** The cleaning works piece by piece, so the survivors keep their input
      order: with `CleanSingle` this determines `Clean` completely. */
  lemma {:induction false} CleanConcat(a: seq<string>, b: seq<string>)
    ensures Clean(a + b) == Clean(a) + Clean(b)
  {
    if a == [] {
      assert a + b == b;
    } else {
      assert (a + b)[1..] == a[1..] + b;
      CleanConcat(a[1..], b);
    }
  }

  /** The submit-time conversion `data.tags ? data.tags.split(",")
      .map(t => t.trim()).filter(Boolean) : []`. Every tag it yields is
      well formed, an absent or empty string yields no tags, and there are
      never more tags than commas plus one. */
  function ParseTags(input: Option<string>): (r: seq<string>)
    ensures forall i :: 0 <= i < |r| ==> WellFormedTag(r[i])
    ensures input == None || input == Some("") ==> r == []
    ensures input.Some? ==> |r| <= Count(input.value, ',') + 1
    ensures input.Some? && input.value != "" ==> r == Clean(Split(input.value, ','))
  {
    match input
    case None => []
    case Some(s) =>
      if s == "" then []
      else
        var pieces := Split(s, ',');
        var r := Clean(pieces);
        SplitLength(s, ',');
        forall i | 0 <= i < |r| ensures ',' !in r[i] {
          assert r[i] in r;
          var p :| p in pieces && r[i] == Trim(p);
          assert ',' !in p;
        }
        r
  }

  /** `(initial.tags || []).join(", ")`, the prefilled tag string: empty
      without tags, and for comma-free tags one comma between each two. */
  function JoinTags(tags: Option<seq<string>>): (r: string)
    ensures tags.None? ==> r == ""
    ensures tags.Some? && (forall i :: 0 <= i < |tags.value| ==> ',' !in tags.value[i]) ==>
      Count(r, ',') == if tags.value == [] then 0 else |tags.value| - 1
    ensures tags.Some? && tags.value != [] ==> StartsWith(r, tags.value[0])
  {
    JoinedCommas(tags.GetOr([]));
    Join(tags.GetOr([]), ", ")
  }

  lemma JoinedCommas(parts: seq<string>)
    ensures (forall i :: 0 <= i < |parts| ==> ',' !in parts[i]) ==>
      Count(Join(parts, ", "), ',') == if parts == [] then 0 else |parts| - 1
  {
    if forall i :: 0 <= i < |parts| ==> ',' !in parts[i] {
      JoinCount(parts, ", ", ',');
      assert Count(", ", ',') == 1;
    }
  }

  /** A space after a comma is dropped by the trim, so it never changes
      the parsed tags. */
  lemma CleanIgnoresLeadingSpace(x: string)
    ensures Clean(Split(" " + x, ',')) == Clean(Split(x, ','))
  {
    SplitPrefix(" ", x, ',');
    var pieces := Split(x, ',');
    assert Split(" " + x, ',') == [" " + pieces[0]] + pieces[1..];
    TrimSkipsLeadingSpace(' ', pieces[0]);
    assert [pieces[0]] + pieces[1..] == pieces;
  }

  /** The cleaned pieces of a non-empty `", "`-join of well-formed tags
      are those tags. */
  lemma {:induction false} CleanSplitJoin(tags: seq<string>)
    requires tags != []
    requires forall i :: 0 <= i < |tags| ==> WellFormedTag(tags[i])
    ensures Clean(Split(Join(tags, ", "), ',')) == tags
  {
    var t := tags[0];
    TrimmedTrimIsIdentity(t);
    if |tags| == 1 {
      SplitWithoutSeparator(t, ',');
      CleanSingle(t);
    } else {
      var rest := tags[1..];
      var tail := Join(rest, ", ");
      CleanSplitJoin(rest);
      assert Join(tags, ", ") == t + [','] + (" " + tail);
      SplitAtSeparator(t, " " + tail, ',');
      CleanConcat([t], Split(" " + tail, ','));
      CleanSingle(t);
      CleanIgnoresLeadingSpace(tail);
      assert [t] + rest == tags;
    }
  }

  /** Round trip of the codec: tags that are non-empty, trimmed and
      comma-free come back unchanged from join-then-parse. */
  lemma ParseJoinRoundTrip(tags: seq<string>)
    requires forall i :: 0 <= i < |tags| ==> WellFormedTag(tags[i])
    ensures ParseTags(Some(JoinTags(Some(tags)))) == tags
  {
    if tags != [] {
      CleanSplitJoin(tags);
      assert StartsWith(Join(tags, ", "), tags[0]);
    }
  }

  /** Parsing is idempotent through the prefill: reopening a form on the
      tags it produced and submitting again yields the same tags. */
  lemma ParseIdempotentThroughJoin(s: Option<string>)
    ensures ParseTags(Some(JoinTags(Some(ParseTags(s))))) == ParseTags(s)
  {
    ParseJoinRoundTrip(ParseTags(s));
  }

  /** The fields the form holds, as the user edits them. */
  datatype FormData = FormData(title: string, description: Option<string>, tags: Option<string>)

  /** What the form hands to its `onSubmit` callback. */
  datatype Payload = Payload(title: string, description: Option<string>, tags: seq<string>)

  /** zod rule `title: z.string().min(1)`, on the string's `length`. */
  predicate TitleValid(title: string)
    ensures TitleValid(title) <==> title != ""
  {
    Utf16Length(title) >= 1
  }

  /** The form's `defaultValues`: the initial item's title and description
      or empty strings, and its tags joined with `", "`. */
  function Defaults(title: Option<string>, description: Option<string>, tags: Option<seq<string>>): (r: FormData)
    ensures r.title == title.GetOr("")
    ensures r.description == Some(description.GetOr(""))
    ensures r.tags == Some(JoinTags(tags))
  {
    FormData(title.GetOr(""), Some(description.GetOr("")), Some(JoinTags(tags)))
  }

  /** The submit handler behind the zod resolver: nothing is submitted when
      the title is empty; otherwise title and description pass through and
      the tag string is parsed. */
  function Submit(data: FormData): (r: Option<Payload>)
    ensures r.Some? <==> data.title != ""
    ensures r.Some? ==> r.value.title == data.title && r.value.description == data.description
    ensures r.Some? ==> r.value.tags == ParseTags(data.tags)
    ensures r.Some? ==> forall i :: 0 <= i < |r.value.tags| ==> WellFormedTag(r.value.tags[i])
  {
    if TitleValid(data.title) then Some(Payload(data.title, data.description, ParseTags(data.tags)))
    else None
  }

  /** Opening the form on an existing item with well-formed tags and
      submitting it unchanged sends back the item's own tags. */
  lemma EditUnchangedKeepsTags(title: string, description: Option<string>, tags: seq<string>)
    requires title != ""
    requires forall i :: 0 <= i < |tags| ==> WellFormedTag(tags[i])
    ensures Submit(Defaults(Some(title), description, Some(tags))).Some?
    ensures Submit(Defaults(Some(title), description, Some(tags))).value.tags == tags
  {
    ParseJoinRoundTrip(tags);
  }
}
