/** How `ModelItem::__call` turns a `deny…` method name into the property names it
    assigns: the name must match `^deny(?<types>.+)$`; in the captured part every `ing`
    becomes `able`, then the result is lower-cased and exploded on `and`. */
module DenyName {
  import opened Wrappers
  import opened Strings

  const Prefix := "deny"

  predicate NoNewline(s: string) {
    forall i :: 0 <= i < |s| ==> s[i] != '\n'
  }

  /** The `types` group of PCRE `^deny(?<types>.+)$`. `.` matches anything but a line
      feed and `$` also matches just before a final line feed, so one trailing `\n` is
      accepted and not captured. */
  function MatchDeny(name: string): (r: Option<string>)
    ensures r.Some? ==> |r.value| > 0 && NoNewline(r.value)
    ensures r.Some? ==> name == Prefix + r.value || name == Prefix + r.value + "\n"
    ensures |name| > |Prefix| && name[..|Prefix|] == Prefix && NoNewline(name[|Prefix|..])
            ==> r == Some(name[|Prefix|..])
    ensures |name| > |Prefix| + 1 && name[..|Prefix|] == Prefix && name[|name| - 1] == '\n'
            && NoNewline(name[|Prefix|..|name| - 1])
            ==> r == Some(name[|Prefix|..|name| - 1])
    ensures (|name| < |Prefix| || name[..|Prefix|] != Prefix) ==> r.None?
  {
    if |name| >= |Prefix| && name[..|Prefix|] == Prefix then
      var rest := name[|Prefix|..];
      assert name == Prefix + rest;
      assert |rest| > 0 ==> rest[..|rest| - 1] == name[|Prefix|..|name| - 1];
      if |rest| > 0 && NoNewline(rest) then Some(rest)
      else if |rest| > 1 && rest[|rest| - 1] == '\n' && NoNewline(rest[..|rest| - 1]) then
        assert rest == rest[..|rest| - 1] + "\n";
        Some(rest[..|rest| - 1])
      else None
    else None
  }

  /** `deny` followed by a non-empty part without line feeds captures that part. */
  lemma MatchDenyPrefixed(types: string)
    requires |types| > 0 && NoNewline(types)
    ensures MatchDeny(Prefix + types) == Some(types)
  {
    assert (Prefix + types)[..|Prefix|] == Prefix;
    assert (Prefix + types)[|Prefix|..] == types;
  }

  /** The property names a `deny<types>` call assigns, in assignment order. */
  function Decode(types: string): (r: seq<string>)
    ensures |r| >= 1
  {
    Explode("and", Lower(Replace(types, "ing", "able")))
  }

  /** Joining the decoded names with `and` gives back the rewritten, lower-cased
      `types`, and no decoded name contains `and`: the split loses nothing and cuts at
      every separator. */
  lemma DecodeRoundTrip(types: string)
    ensures Join("and", Decode(types)) == Lower(Replace(types, "ing", "able"))
    ensures forall n :: n in Decode(types) ==> !Contains(n, "and")
  {
    ExplodeJoin("and", Lower(Replace(types, "ing", "able")));
    ExplodeClean("and", Lower(Replace(types, "ing", "able")));
  }

  /** `ing` cannot start inside `And` and run into what follows it. */
  lemma IngNoStraddleAfterAnd(y: string)
    ensures NoStraddle("And", "ing", y)
  {
    forall i | 0 < i < 3
      ensures !OccursAt("And" + y, "ing", i)
    {
      MismatchAt("And" + y, "ing", i, 0);
    }
  }

  /** Decoding `A` + `And` + `B` assigns the names of `A` and then those of `B`: a
      combined deny call is the two single calls in sequence. */
  lemma DecodeAnd(a: string, b: string)
    ensures Decode(a + "And" + b) == Decode(a) + Decode(b)
  {
    var ra := Replace(a, "ing", "able");
    var rb := Replace(b, "ing", "able");
    assert Replace("And", "ing", "able") == "And";
    NoStraddleAtSeam(a, "ing", "And" + b);
    ReplaceConcat(a, "And" + b, "ing", "able");
    IngNoStraddleAfterAnd(b);
    ReplaceConcat("And", b, "ing", "able");
    assert a + "And" + b == a + ("And" + b);
    assert Replace(a + "And" + b, "ing", "able") == ra + "And" + rb;
    LowerConcat(ra + "And", rb);
    LowerConcat(ra, "And");
    assert Lower("And") == "and";
    NoStraddleAtSeam(Lower(ra), "and", "and" + Lower(rb));
    ExplodeConcat(Lower(ra), "and", Lower(rb));
  }

  /** A verb whose rewritten, lower-cased form holds no `and` decodes to that one name. */
  lemma DecodeSingle(types: string, low: string)
    requires Lower(Replace(types, "ing", "able")) == low
    requires !Contains(low, "and")
    ensures Decode(types) == [low]
  {
    ExplodeAbsent("and", low);
  }

  /** A verb `<stem>ing` whose only `ing` is the last decodes to one name, the
      lower-cased `<stem>able`, when that name holds no `and`. `head` is the verb
      without its final letter. */
  lemma VerbDecodes(verb: string, stem: string, head: string, replaced: string, low: string)
    requires verb == stem + "ing" && head == stem + "in" && !Contains(head, "ing")
    requires replaced == stem + "able" && Lower(replaced) == low && !Contains(low, "and")
    ensures Decode(verb) == [low]
  {
    ContainsOccurs(head, "ing");
    forall k | 0 <= k < |stem| ensures !OccursAt(stem + "ing", "ing", k) {
      assert !OccursAt(head, "ing", k);
      if k + 3 <= |stem| + 2 {
        assert (stem + "ing")[k..k + 3] == head[k..k + 3];
      }
    }
    ReplaceSuffix(stem, "ing", "able");
    DecodeSingle(verb, low);
  }

  /** A word without `ing` decodes to its lower-cased self, when that holds no `and`. */
  lemma PlainDecodes(types: string, low: string)
    requires !Contains(types, "ing") && Lower(types) == low && !Contains(low, "and")
    ensures Decode(types) == [low]
  {
    ReplaceAbsent(types, "ing", "able");
    DecodeSingle(types, low);
  }

  /** `denyCreating` assigns `creatable` and nothing else. */
  lemma DecodeCreating()
    ensures Decode("Creating") == ["creatable"]
  {
    CreatingSpelled();
    CreatinHasNoIng();
    CreatableLowered();
    CreatableHasNoAnd();
    VerbDecodes("Creating", "Creat", "Creatin", "Creatable", "creatable");
  }

  // The literal facts `DecodeCreating` needs, one per lemma so that each literal is
  // evaluated in a proof of its own.
  lemma CreatingSpelled()
    ensures "Creating" == "Creat" + "ing" && "Creatin" == "Creat" + "in" && "Creatable" == "Creat" + "able"
  {
  }

  lemma CreatinHasNoIng()
    ensures !Contains("Creatin", "ing")
  {
  }

  lemma CreatableLowered()
    ensures Lower("Creatable") == "creatable"
  {
  }

  lemma CreatableHasNoAnd()
    ensures !Contains("creatable", "and")
  {
  }

  /** `denyEditing` assigns `editable` and nothing else. */
  lemma DecodeEditing()
    ensures Decode("Editing") == ["editable"]
  {
    EditingSpelled();
    EditinHasNoIng();
    EditableLowered();
    EditableHasNoAnd();
    VerbDecodes("Editing", "Edit", "Editin", "Editable", "editable");
  }

  // The literal facts `DecodeEditing` needs, one per lemma so that each literal is
  // evaluated in a proof of its own.
  lemma EditingSpelled()
    ensures "Editing" == "Edit" + "ing" && "Editin" == "Edit" + "in" && "Editable" == "Edit" + "able"
  {
  }

  lemma EditinHasNoIng()
    ensures !Contains("Editin", "ing")
  {
  }

  lemma EditableLowered()
    ensures Lower("Editable") == "editable"
  {
  }

  lemma EditableHasNoAnd()
    ensures !Contains("editable", "and")
  {
  }

  /** `denyDeleting` assigns `deletable` and nothing else. */
  lemma DecodeDeleting()
    ensures Decode("Deleting") == ["deletable"]
  {
    DeletingSpelled();
    DeletinHasNoIng();
    DeletableLowered();
    DeletableHasNoAnd();
    VerbDecodes("Deleting", "Delet", "Deletin", "Deletable", "deletable");
  }

  // The literal facts `DecodeDeleting` needs, one per lemma so that each literal is
  // evaluated in a proof of its own.
  lemma DeletingSpelled()
    ensures "Deleting" == "Delet" + "ing" && "Deletin" == "Delet" + "in" && "Deletable" == "Delet" + "able"
  {
  }

  lemma DeletinHasNoIng()
    ensures !Contains("Deletin", "ing")
  {
  }

  lemma DeletableLowered()
    ensures Lower("Deletable") == "deletable"
  {
  }

  lemma DeletableHasNoAnd()
    ensures !Contains("deletable", "and")
  {
  }

  /** `denyOrdering` assigns the declared property `orderable`. */
  lemma DecodeOrdering()
    ensures Decode("Ordering") == ["orderable"]
  {
    OrderingSpelled();
    OrderinHasNoIng();
    OrderableLowered();
    OrderableHasNoAnd();
    VerbDecodes("Ordering", "Order", "Orderin", "Orderable", "orderable");
  }

  // The literal facts `DecodeOrdering` needs, one per lemma so that each literal is
  // evaluated in a proof of its own.
  lemma OrderingSpelled()
    ensures "Ordering" == "Order" + "ing" && "Orderin" == "Order" + "in" && "Orderable" == "Order" + "able"
  {
  }

  lemma OrderinHasNoIng()
    ensures !Contains("Orderin", "ing")
  {
  }

  lemma OrderableLowered()
    ensures Lower("Orderable") == "orderable"
  {
  }

  lemma OrderableHasNoAnd()
    ensures !Contains("orderable", "and")
  {
  }

  /** `denyTitle` assigns the declared property `title`. */
  lemma DecodeTitle()
    ensures Decode("Title") == ["title"]
  {
    TitleHasNoIng();
    TitleLowered();
    TitleHasNoAnd();
    PlainDecodes("Title", "title");
  }

  // The literal facts `DecodeTitle` needs, one per lemma so that each literal is
  // evaluated in a proof of its own.
  lemma TitleHasNoIng()
    ensures !Contains("Title", "ing")
  {
  }

  lemma TitleLowered()
    ensures Lower("Title") == "title"
  {
  }

  lemma TitleHasNoAnd()
    ensures !Contains("title", "and")
  {
  }

  /** A bare `And` decodes to two empty names. */
  lemma DecodeBareAnd()
    ensures Decode("And") == ["", ""]
  {
    DecodeAnd("", "");
    assert Decode("") == [""] by {
      assert Replace("", "ing", "able") == "";
      assert !Contains("", "and");
      ExplodeAbsent("and", "");
    }
    assert "" + "And" + "" == "And";
  }

  /** `denyEditingAndDeleting` assigns `editable`, then `deletable`. */
  lemma DecodeEditingAndDeleting()
    ensures Decode("EditingAndDeleting") == ["editable", "deletable"]
  {
    DecodeEditing();
    DecodeDeleting();
    DecodeAnd("Editing", "Deleting");
    EditingAndDeletingSpelled();
  }

  lemma EditingAndDeletingSpelled()
    ensures "Editing" + "And" + "Deleting" == "EditingAndDeleting"
  {
  }
}
