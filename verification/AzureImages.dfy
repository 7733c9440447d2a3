/** Azure image ids: four texts printed with "##" between them, and read back by cutting at "##". */
module AzureImages {
  import opened Outcomes
  import opened Text

  const SEPARATOR: string := "##"

  datatype ImageRef = ImageRef(publisher: string, offer: string, sku: string, version: string)

  function CreateImageID(r: ImageRef): string {
    r.publisher + SEPARATOR + r.offer + SEPARATOR + r.sku + SEPARATOR + r.version
  }

  /** It indexes the tokens without counting them. */
  function ParseImageID(id: string): Outcome<ImageRef> {
    var tokens := Split(id, SEPARATOR);
    if |tokens| < 4 then Panicked
    else Returned(ImageRef(tokens[0], tokens[1], tokens[2], tokens[3]))
  }

  predicate EndsInHash(s: string) {
    s != "" && s[|s| - 1] == '#'
  }

  /** A component is cut off whole exactly when it has no separator and no half of one at its end. */
  lemma {:induction false} CleanComponent(t: string)
    ensures CutsAfter(t, SEPARATOR) <==> Index(t, SEPARATOR).None? && !EndsInHash(t)
  {
    if t == "" {
      assert SEPARATOR[..2] == SEPARATOR;
    } else {
      CleanComponent(t[1..]);
      var s := t + SEPARATOR;
      assert s[1..] == t[1..] + SEPARATOR;
      assert s[..2] == SEPARATOR <==> s[0] == '#' && s[1] == '#';
      if |t| >= 2 {
        assert t[..2] == s[..2];
      } else {
        assert t == [t[0]];
      }
    }
  }

  /** The tokens after a clean component are the tokens of the rest. */
  lemma ComponentTokens(t: string, rest: string)
    ensures var tokens := Split(t + SEPARATOR + rest, SEPARATOR);
            var clean := !Contains(t, SEPARATOR) && !EndsInHash(t);
            && |tokens| >= 1 + |Split(rest, SEPARATOR)|
            && (tokens[0] == t <==> clean)
            && (clean ==> tokens == [t] + Split(rest, SEPARATOR))
  {
    CleanComponent(t);
    IndexIsContains(t, SEPARATOR);
    FirstToken(t, SEPARATOR, rest);
    SeparatorAddsToken(t, SEPARATOR, rest);
  }

  lemma LastToken(v: string)
    ensures Split(v, SEPARATOR)[0] == v <==> !Contains(v, SEPARATOR)
  {
    IndexIsContains(v, SEPARATOR);
  }

  lemma CreatedIsNested(r: ImageRef)
    ensures CreateImageID(r) == r.publisher + SEPARATOR + (r.offer + SEPARATOR + (r.sku + SEPARATOR + r.version))
  {
    var tail := r.sku + SEPARATOR + r.version;
    assert CreateImageID(r) == r.publisher + SEPARATOR + (r.offer + SEPARATOR + tail);
  }

  /** Reading back a printed id never indexes past its tokens. */
  lemma CreatedIsReadable(r: ImageRef)
    ensures ParseImageID(CreateImageID(r)).Returned?
  {
    var skuOn := r.sku + SEPARATOR + r.version;
    CreatedIsNested(r);
    ComponentTokens(r.publisher, r.offer + SEPARATOR + skuOn);
    ComponentTokens(r.offer, skuOn);
    ComponentTokens(r.sku, r.version);
  }

  /** The components that survive printing and reading. */
  ghost predicate Printable(r: ImageRef) {
    && !Contains(r.publisher, SEPARATOR) && !EndsInHash(r.publisher)
    && !Contains(r.offer, SEPARATOR) && !EndsInHash(r.offer)
    && !Contains(r.sku, SEPARATOR) && !EndsInHash(r.sku)
    && !Contains(r.version, SEPARATOR)
  }

  /** The form of an id, and which tokens of any text are read. */
  lemma IdFormat(r: ImageRef, id: string)
    ensures CreateImageID(r) == r.publisher + "##" + r.offer + "##" + r.sku + "##" + r.version
    ensures var tokens := Split(id, "##");
            ParseImageID(id) == if |tokens| < 4 then Panicked
                                else Returned(ImageRef(tokens[0], tokens[1], tokens[2], tokens[3]))
  {
  }

  /** The tokens of an id with printable components are the components. */
  lemma IdTokens(r: ImageRef)
    requires Printable(r)
    ensures Split(CreateImageID(r), "##") == [r.publisher, r.offer, r.sku, r.version]
  {
    var skuOn := r.sku + SEPARATOR + r.version;
    var offerOn := r.offer + SEPARATOR + skuOn;
    CreatedIsNested(r);
    ComponentTokens(r.publisher, offerOn);
    ComponentTokens(r.offer, skuOn);
    ComponentTokens(r.sku, r.version);
    LastIsWhole(r.version);
    FourInFront(r.publisher, r.offer, r.sku, r.version);
  }

  lemma LastIsWhole(v: string)
    requires !Contains(v, SEPARATOR)
    ensures Split(v, SEPARATOR) == [v]
  {
    IndexIsContains(v, SEPARATOR);
  }

  lemma FourInFront(a: string, b: string, c: string, d: string)
    ensures [a] + ([b] + ([c] + [d])) == [a, b, c, d]
  {
  }

  /** The round trip holds exactly if no component has "##" in it and none of the first three ends in '#'. */
  lemma RoundTrip(r: ImageRef)
    ensures ParseImageID(CreateImageID(r)) == Returned(r) <==> Printable(r)
    ensures Printable(r) <==>
            && !Contains(r.publisher, "##") && !(r.publisher != "" && r.publisher[|r.publisher| - 1] == '#')
            && !Contains(r.offer, "##") && !(r.offer != "" && r.offer[|r.offer| - 1] == '#')
            && !Contains(r.sku, "##") && !(r.sku != "" && r.sku[|r.sku| - 1] == '#')
            && !Contains(r.version, "##")
  {
    var skuOn := r.sku + SEPARATOR + r.version;
    var offerOn := r.offer + SEPARATOR + skuOn;
    CreatedIsNested(r);
    CreatedIsReadable(r);
    ComponentTokens(r.publisher, offerOn);
    ComponentTokens(r.offer, skuOn);
    ComponentTokens(r.sku, r.version);
    LastToken(r.version);
  }

  /** Two printable references never share an id. */
  lemma PrintableIsInjective(a: ImageRef, b: ImageRef)
    requires Printable(a) && Printable(b)
    requires CreateImageID(a) == CreateImageID(b)
    ensures a == b
  {
    RoundTrip(a);
    RoundTrip(b);
  }
}
