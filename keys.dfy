/**
 * The four key families of the board in the key-value store: the panel anchor,
 * the anonymous counter and the log channel of a board channel, and the
 * record of a published post.
 */
module Keys {
  import opened Ascii

  datatype Family = Panel | Counter | LogChannel | Post

  /** A key of the store, by family and channel or message id. `Key` renders it as
      the string the store is indexed by; `KeyInjective` shows that two keys render
      alike exactly when they are equal, so a store indexed by `StoreKey` holds
      the same entries as one indexed by the rendered strings. */
  datatype StoreKey = StoreKey(family: Family, id: nat)

  function Prefix(f: Family): string {
    match f
    case Panel => "anonboard:panel:"
    case Counter => "anonboard:counter:"
    case LogChannel => "anonboard:logchan:"
    case Post => "anonboard:post:"
  }

  /** `gkey_panel`, `gkey_counter`, `gkey_logchan` and `gkey_postmap`: the
      family's prefix followed by the decimal id. */
  function Key(f: Family, id: nat): (k: string)
    ensures |Prefix(f)| < |k| && k[..|Prefix(f)|] == Prefix(f)
    ensures IsAllDigits(k[|Prefix(f)|..])
    ensures ParseNat(k[|Prefix(f)|..]) == id
  {
    var k := Prefix(f) + NatToString(id);
    assert k[|Prefix(f)|..] == NatToString(id);
    ParseNatToString(id);
    k
  }

  /** Two prefixes differ at a position both have, so neither is a prefix of the other. */
  lemma PrefixesDiverge(f: Family, g: Family)
    requires f != g
    ensures exists i :: 0 <= i < |Prefix(f)| && i < |Prefix(g)| && Prefix(f)[i] != Prefix(g)[i]
  {
    if (f == Panel && g == Post) || (f == Post && g == Panel) {
      assert Prefix(f)[11] != Prefix(g)[11];
    } else {
      assert Prefix(f)[10] != Prefix(g)[10];
    }
  }

  /** Keys never collide: two keys are equal exactly when family and id agree. */
  lemma KeyInjective(f: Family, a: nat, g: Family, b: nat)
    ensures Key(f, a) == Key(g, b) <==> f == g && a == b
  {
    if Key(f, a) == Key(g, b) {
      if f != g {
        PrefixesDiverge(f, g);
        assert false;
      } else {
        assert NatToString(a) == Key(f, a)[|Prefix(f)|..];
        assert NatToString(b) == Key(g, b)[|Prefix(g)|..];
        NatToStringInjective(a, b);
      }
    }
  }
}
