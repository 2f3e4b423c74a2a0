/**
 * `TYPE_RULES`, `classify` and `categoryFromType` of src/utils.js: the ordered table of
 * lower-case key stems that names the type of a transaction from its description, and
 * the reporting category of each type.
 */
module Classification {
  import opened Wrappers
  import opened Text

  /** The types `classify` returns. */
  datatype TxType = Tip | Post | Stream | Resub | Sub | PPV | Bundle

  /** What a rule yields: a fixed type, or the Payment rule, which looks at the cents of the gross. */
  datatype Outcome = Fixed(kind: TxType) | Payment

  datatype Rule = Rule(outcome: Outcome, keys: seq<string>)

  /** `TYPE_RULES`, in table order. */
  const TypeRules: seq<Rule> := [
    Rule(Fixed(Tip), ["tip", "sugerenc"]),
    Rule(Fixed(Post), ["post", "publica"]),
    Rule(Fixed(Stream), ["stream"]),
    Rule(Fixed(Resub), ["recurring", "resub"]),
    Rule(Fixed(Sub), ["sub"]),
    Rule(Payment, ["payment", "pago"])
  ]

  /** `r.keys.some(k => t.includes(k))`. */
  predicate RuleMatches(r: Rule, t: string) {
    exists i :: 0 <= i < |r.keys| && Contains(t, r.keys[i])
  }

  /** `find` from position `p`: the index of the first rule with a key occurring in `t`. */
  function FindRule(rules: seq<Rule>, t: string, p: nat): (r: Option<nat>)
    requires p <= |rules|
    ensures r.Some? ==> p <= r.value < |rules| && RuleMatches(rules[r.value], t)
    ensures r.Some? ==> forall j :: p <= j < r.value ==> !RuleMatches(rules[j], t)
    ensures r.None? ==> forall j :: p <= j < |rules| ==> !RuleMatches(rules[j], t)
    decreases |rules| - p
  {
    if p == |rules| then None
    else if RuleMatches(rules[p], t) then Some(p)
    else FindRule(rules, t, p + 1)
  }

  /**
   * `Math.round((gross % 1) * 100)` for a gross of `g` cents: the cents of the amount,
   * negative for a negative amount because JavaScript's `%` keeps the dividend's sign.
   */
  function CentsOf(g: int): (c: int)
    ensures -100 < c < 100
    ensures c == 0 <==> g % 100 == 0
  {
    if g >= 0 then g % 100
    else
      var c := -((-g) % 100);
      assert g == -((-g) / 100 * 100) - (-g) % 100;
      assert g % 100 == 0 <==> (-g) % 100 == 0;
      c
  }

  /** The type a rule yields for a transaction of `gross` cents. */
  function Resolve(o: Outcome, gross: int): (t: TxType)
    ensures o.Fixed? ==> t == o.kind
    ensures o.Payment? ==> (t == PPV <==> gross % 100 != 0) && (t == PPV || t == Bundle)
  {
    match o
    case Fixed(kind) => kind
    case Payment => if CentsOf(gross) != 0 then PPV else Bundle
  }

  /** `classify`: the type of the first rule whose key occurs in the lower-cased description. */
  function Classify(desc: string, gross: int): (r: Option<TxType>)
    ensures desc == [] ==> r.None?
    ensures r == Some(PPV) ==> gross % 100 != 0
    ensures r == Some(Bundle) ==> gross % 100 == 0
  {
    if desc == [] then None
    else
      match FindRule(TypeRules, Lower(desc), 0)
      case None => None
      case Some(j) => Some(Resolve(TypeRules[j].outcome, gross))
  }

  /** The first rule in table order that matches decides the type. */
  lemma ClassifyFirstMatch(desc: string, gross: int, j: nat)
    requires desc != [] && j < |TypeRules|
    requires RuleMatches(TypeRules[j], Lower(desc))
    requires forall i :: 0 <= i < j ==> !RuleMatches(TypeRules[i], Lower(desc))
    ensures Classify(desc, gross) == Some(Resolve(TypeRules[j].outcome, gross))
  {
    var k := FindRule(TypeRules, Lower(desc), 0);
    assert k.Some?;
    assert k.value == j by {
      assert !(k.value < j);
      assert !(j < k.value);
    }
  }

  /** An empty description, or one in which no key occurs, has no type. */
  lemma ClassifyNone(desc: string, gross: int)
    ensures Classify(desc, gross).None? <==>
              desc == [] || forall j :: 0 <= j < |TypeRules| ==> !RuleMatches(TypeRules[j], Lower(desc))
  {
    if desc != [] && exists j :: 0 <= j < |TypeRules| && RuleMatches(TypeRules[j], Lower(desc)) {
      assert FindRule(TypeRules, Lower(desc), 0).Some?;
    }
  }

  /** A key of rule `j` occurring in `t` makes rule `j` match. */
  lemma KeyMatches(j: nat, i: nat, t: string)
    requires j < |TypeRules| && i < |TypeRules[j].keys|
    requires Contains(t, TypeRules[j].keys[i])
    ensures RuleMatches(TypeRules[j], t)
  {
  }

  /** "tip" (or "sugerenc") anywhere wins over every other key, "sub" and "payment" included. */
  lemma TipWins(desc: string, gross: int)
    requires Contains(Lower(desc), "tip") || Contains(Lower(desc), "sugerenc")
    ensures Classify(desc, gross) == Some(Tip)
  {
    var t := Lower(desc);
    if Contains(t, "tip") {
      ContainsLength(t, "tip");
      KeyMatches(0, 0, t);
    } else {
      ContainsLength(t, "sugerenc");
      KeyMatches(0, 1, t);
    }
    ClassifyFirstMatch(desc, gross, 0);
  }

  /** "post" wins over "payment" when no tip key occurs. */
  lemma PostBeatsPayment(desc: string, gross: int)
    requires Contains(Lower(desc), "post")
    requires !Contains(Lower(desc), "tip") && !Contains(Lower(desc), "sugerenc")
    ensures Classify(desc, gross) == Some(Post)
  {
    var t := Lower(desc);
    ContainsLength(t, "post");
    KeyMatches(1, 0, t);
    assert !RuleMatches(TypeRules[0], t);
    ClassifyFirstMatch(desc, gross, 1);
  }

  /** "recurring" yields Resub, not Sub, even though a recurring subscription also contains "sub". */
  lemma RecurringIsResub(desc: string, gross: int)
    requires Contains(Lower(desc), "recurring")
    requires forall j :: 0 <= j < 3 ==> !RuleMatches(TypeRules[j], Lower(desc))
    ensures Classify(desc, gross) == Some(Resub)
  {
    var t := Lower(desc);
    ContainsLength(t, "recurring");
    KeyMatches(3, 0, t);
    ClassifyFirstMatch(desc, gross, 3);
  }

  /**
   * The gross decides only between PPV and Bundle: a description classifies the same at
   * every gross, except that the Payment rule gives PPV for an amount with cents and
   * Bundle for a whole-dollar amount.
   */
  lemma GrossOnlyForPayment(desc: string, g1: int, g2: int)
    ensures Classify(desc, g1).None? <==> Classify(desc, g2).None?
    ensures Classify(desc, g1) == Classify(desc, g2) ||
            (Classify(desc, g1) in {Some(PPV), Some(Bundle)} && Classify(desc, g2) in {Some(PPV), Some(Bundle)})
  {
  }

  /** PPV is exactly a Payment description (Bundle at a whole gross) with cents in the gross. */
  lemma PpvIff(desc: string, gross: int)
    ensures Classify(desc, gross) == Some(PPV) <==> Classify(desc, 0) == Some(Bundle) && gross % 100 != 0
    ensures Classify(desc, gross) == Some(Bundle) <==> Classify(desc, 0) == Some(Bundle) && gross % 100 == 0
  {
  }

  /** The reporting categories. */
  datatype Category = Tips | Posts | Subs | Messages

  /** `categoryFromType`. */
  function CategoryFromType(t: TxType): (r: Option<Category>)
    ensures r.None? <==> t == Stream
    ensures r == Some(Tips) <==> t == Tip
    ensures r == Some(Posts) <==> t == Post
    ensures r == Some(Subs) <==> t == Sub || t == Resub
    ensures r == Some(Messages) <==> t == PPV || t == Bundle
  {
    match t
    case Tip => Some(Tips)
    case Post => Some(Posts)
    case Sub => Some(Subs)
    case Resub => Some(Subs)
    case PPV => Some(Messages)
    case Bundle => Some(Messages)
    case Stream => None
  }

  /** A classified description without a category is a stream: "stream" occurs in it. */
  lemma UncategorisedIsStream(desc: string, gross: int)
    requires Classify(desc, gross).Some? && CategoryFromType(Classify(desc, gross).value).None?
    ensures Contains(Lower(desc), "stream")
  {
    var j := FindRule(TypeRules, Lower(desc), 0).value;
    assert j == 2;
    assert TypeRules[2].keys == ["stream"];
  }
}
