/**
 * Step 2 of `execute`: the user text is the texts of the message's parts that
 * carry a non-empty `text`, in their order, joined with one space.
 */
module TextAssembly {
  import opened Wrappers
  import opened A2aTypes

  /** `getattr(part, "text", None)`: the part's `text` attribute, if it has one. */
  function TextAttr(p: Part): Option<string>
  {
    match p
    case TextPart(text) => Some(text)
    case _ => None
  }

  /** Python truthiness of an optional string: present and non-empty. */
  predicate Truthy(o: Option<string>)
  {
    match o
    case None => false
    case Some(s) => s != ""
  }

  /** The filter of the generator expression: the part's `text` attribute is truthy. */
  predicate Contributes(p: Part): (b: bool)
    ensures b <==> p.TextPart? && p.text != ""
  {
    Truthy(TextAttr(p))
  }

  /** The texts the generator expression yields, in order. */
  function TextsOf(parts: seq<Part>): (r: seq<string>)
    ensures |r| <= |parts|
    ensures forall i :: 0 <= i < |r| ==> r[i] != ""
  {
    if parts == [] then []
    else if Contributes(parts[0]) then [parts[0].text] + TextsOf(parts[1..])
    else TextsOf(parts[1..])
  }

  /** The total number of characters of a list of strings. */
  function TotalLength(xs: seq<string>): nat
  {
    if xs == [] then 0 else |xs[0]| + TotalLength(xs[1..])
  }

  /** Python's `" ".join(xs)`: the strings plus one separator between each two. */
  function Join(xs: seq<string>): (r: string)
    ensures xs == [] ==> r == ""
    ensures xs != [] ==> |r| == TotalLength(xs) + |xs| - 1
  {
    if |xs| == 0 then ""
    else if |xs| == 1 then xs[0]
    else xs[0] + " " + Join(xs[1..])
  }

  /** Python's `s.split(" ")`: the pieces between single spaces. */
  function Split(s: string): (r: seq<string>)
    ensures |r| >= 1
  {
    if s == [] then [""]
    else
      var rest := Split(s[1..]);
      if s[0] == ' ' then [""] + rest else [[s[0]] + rest[0]] + rest[1..]
  }

  /** The user text assembled from a message's parts. */
  function AssembleText(parts: seq<Part>): (r: string)
    ensures r == "" <==> forall p :: p in parts ==> !Contributes(p)
  {
    TextsEmptyIff(parts);
    JoinEmptyIff(TextsOf(parts));
    Join(TextsOf(parts))
  }

  // ---------------------------------------------------------------------
  // Filtering
  // ---------------------------------------------------------------------

  /** Filtering a concatenation filters each half and keeps their order. */
  lemma {:induction false} TextsOfConcat(a: seq<Part>, b: seq<Part>)
    ensures TextsOf(a + b) == TextsOf(a) + TextsOf(b)
  {
    if a == [] {
      assert a + b == b;
    } else {
      assert (a + b)[1..] == a[1..] + b;
      TextsOfConcat(a[1..], b);
    }
  }

  /** A text is kept exactly when some part carries it and it is non-empty. */
  lemma {:induction false} TextsOfMember(parts: seq<Part>, t: string)
    ensures t in TextsOf(parts) <==> exists p :: p in parts && Contributes(p) && p.text == t
  {
    if parts != [] {
      TextsOfMember(parts[1..], t);
      assert forall p :: p in parts <==> p == parts[0] || p in parts[1..];
    }
  }

  /** No text is kept exactly when no part contributes. */
  lemma {:induction false} TextsEmptyIff(parts: seq<Part>)
    ensures TextsOf(parts) == [] <==> forall p :: p in parts ==> !Contributes(p)
  {
    if parts != [] {
      TextsEmptyIff(parts[1..]);
      assert forall p :: p in parts <==> p == parts[0] || p in parts[1..];
    }
  }

  // ---------------------------------------------------------------------
  // Joining
  // ---------------------------------------------------------------------

  /** Joining non-empty strings gives the empty string only for no strings. */
  lemma JoinEmptyIff(xs: seq<string>)
    requires forall i :: 0 <= i < |xs| ==> xs[i] != ""
    ensures Join(xs) == "" <==> xs == []
  {
    if |xs| >= 2 {
      assert |Join(xs)| >= |xs[0]|;
    }
  }

  /** Joining two non-empty lists puts exactly one space between their joins. */
  lemma {:induction false} JoinConcat(a: seq<string>, b: seq<string>)
    requires a != [] && b != []
    ensures Join(a + b) == Join(a) + " " + Join(b)
  {
    if |a| == 1 {
      assert (a + b)[1..] == b;
    } else {
      assert (a + b)[1..] == a[1..] + b;
      JoinConcat(a[1..], b);
    }
  }

  // ---------------------------------------------------------------------
  // Splitting recovers what was joined
  // ---------------------------------------------------------------------

  lemma {:induction false} SplitNoSpace(x: string)
    requires ' ' !in x
    ensures Split(x) == [x]
  {
    if x != [] {
      SplitNoSpace(x[1..]);
      assert [x[0]] + x[1..] == x;
    }
  }

  lemma {:induction false} SplitAfterWord(x: string, y: string)
    requires ' ' !in x
    ensures Split(x + " " + y) == [x] + Split(y)
  {
    if x == [] {
      assert (x + " " + y)[1..] == y;
    } else {
      assert (x + " " + y)[1..] == x[1..] + " " + y;
      SplitAfterWord(x[1..], y);
      assert [x[0]] + x[1..] == x;
    }
  }

  /** `Split` is the inverse of `Join` on a non-empty list of space-free strings. */
  lemma {:induction false} SplitJoin(xs: seq<string>)
    requires xs != []
    requires forall i :: 0 <= i < |xs| ==> ' ' !in xs[i]
    ensures Split(Join(xs)) == xs
  {
    if |xs| == 1 {
      SplitNoSpace(xs[0]);
    } else {
      SplitJoin(xs[1..]);
      SplitAfterWord(xs[0], Join(xs[1..]));
      assert [xs[0]] + xs[1..] == xs;
    }
  }

  // ---------------------------------------------------------------------
  // The assembled text
  // ---------------------------------------------------------------------

  /**
   * Assembling a concatenation of part lists: the two texts in order, with a
   * single space between them when both are non-empty.
   */
  lemma AssembleTextConcat(a: seq<Part>, b: seq<Part>)
    ensures AssembleText(a + b) ==
      if AssembleText(a) == "" then AssembleText(b)
      else if AssembleText(b) == "" then AssembleText(a)
      else AssembleText(a) + " " + AssembleText(b)
  {
    TextsOfConcat(a, b);
    var ta, tb := TextsOf(a), TextsOf(b);
    JoinEmptyIff(ta);
    JoinEmptyIff(tb);
    if ta == [] {
      assert ta + tb == tb;
    } else if tb == [] {
      assert ta + tb == ta;
    } else {
      JoinConcat(ta, tb);
    }
  }

  /** A part without a non-empty text adds no text and no separator. */
  lemma AssembleTextSkips(a: seq<Part>, p: Part, b: seq<Part>)
    requires !Contributes(p)
    ensures AssembleText(a + [p] + b) == AssembleText(a + b)
  {
    AssembleTextConcat(a, [p]);
    AssembleTextConcat(a + [p], b);
    AssembleTextConcat(a, b);
    assert AssembleText([p]) == "";
  }

  /** A contributing part appended last adds its text after one space, if any text precedes. */
  lemma AssembleTextAppend(parts: seq<Part>, p: Part)
    requires Contributes(p)
    ensures AssembleText(parts + [p]) ==
      if AssembleText(parts) == "" then p.text else AssembleText(parts) + " " + p.text
  {
    AssembleTextConcat(parts, [p]);
    assert TextsOf([p]) == [p.text];
  }

  /**
   * When no text contains a space, splitting the assembled text on spaces
   * gives back the kept texts one by one.
   */
  lemma AssembleTextRecoverable(parts: seq<Part>)
    requires exists p :: p in parts && Contributes(p)
    requires forall p :: p in parts && p.TextPart? ==> ' ' !in p.text
    ensures Split(AssembleText(parts)) == TextsOf(parts)
  {
    var ts := TextsOf(parts);
    TextsEmptyIff(parts);
    forall i | 0 <= i < |ts| ensures ' ' !in ts[i] {
      assert ts[i] in ts;
      TextsOfMember(parts, ts[i]);
    }
    SplitJoin(ts);
  }
}
