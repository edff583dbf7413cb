/** The product routes: what each accepts, the row it leaves, and the columns of a product over runs. */
module ProduitLois {
  import opened Commun
  import opened Tables
  import opened Stock
  import opened Caisse
  import StockRuns

  // ── Trimming ────────────────────────────────────────────────────────────

  /** A blank name is no name. */
  predicate ToutBlanc(x: string) { forall k :: 0 <= k < |x| ==> Blanc(x[k]) }

  /** t is s without the blanks at its ends, and nothing else. */
  ghost predicate Rogne(s: string, t: string) {
    && (t != "" ==> !Blanc(t[0]) && !Blanc(t[|t| - 1]))
    && exists a, b :: ToutBlanc(a) && ToutBlanc(b) && s == a + t + b
  }

  lemma {:induction false} RognerExact(s: string)
    ensures Rogne(s, Rogner(s))
    decreases |s|
  {
    var t := Rogner(s);
    if s == "" {
      assert ToutBlanc("") && s == "" + t + "";
    } else if Blanc(s[0]) {
      RognerExact(s[1..]);
      var a, b :| ToutBlanc(a) && ToutBlanc(b) && s[1..] == a + t + b;
      assert ToutBlanc([s[0]] + a) && s == ([s[0]] + a) + t + b;
    } else if Blanc(s[|s| - 1]) {
      RognerExact(s[..|s| - 1]);
      var a, b :| ToutBlanc(a) && ToutBlanc(b) && s[..|s| - 1] == a + t + b;
      assert ToutBlanc(b + [s[|s| - 1]]) && s == a + t + (b + [s[|s| - 1]]);
    } else {
      assert ToutBlanc("") && s == "" + t + "";
    }
  }

  lemma BlancOuNon(x: string)
    ensures Rogner(x) != "" <==> !ToutBlanc(x)
  {
    RognerExact(x);
    var t := Rogner(x);
    var a, b :| ToutBlanc(a) && ToutBlanc(b) && x == a + t + b;
    if t != "" { assert x[|a|] == t[0]; }
  }

  // ── Creation ────────────────────────────────────────────────────────────

  /** One more product, and nothing else. */
  ghost predicate ProduitDePlus(s: Etat, s': Etat, p: Produit) {
    s' == s.(produits := s'.produits) && s'.produits == s.produits + [Some(p)]
  }

  /** The till's creation: exactly for a name of two characters or more and a unit, blanks at the ends aside. */
  lemma CreerProduitExact(s: Etat, m: Marchand, nom: string, stock: Option<real>, unite: string)
    ensures var (s', rep) := CreerProduit(s, m, nom, stock, unite);
      && (rep.Refusee? ==> s' == s)
      && exists n, u :: Rogne(nom, n) && Rogne(unite, u)
           && (rep.Ok? <==> |n| >= 2 && u != "")
           && (rep.Ok? ==> rep.valeur == |s.produits| && ProduitDePlus(s, s', Produit(m, n, stock, Some(u), true)))
  {
    RognerExact(nom);
    RognerExact(unite);
  }

  /** The stock screen's creation: exactly with a name, the unit defaulting to "unite". */
  lemma PoserStockExact(s: Etat, m: Marchand, nom: Option<string>, q: real, unite: Option<string>)
    ensures var (s', rep) := PoserStock(s, m, nom, q, unite);
      && (rep.Ok? <==> nom.Some?) && (rep.Refusee? ==> s' == s)
      && (rep.Ok? ==> rep.valeur == |s.produits|
                      && ProduitDePlus(s, s', Produit(m, nom.value, Some(q), if unite.None? then Some("unite") else unite, true)))
  {
  }

  // ── Updates ─────────────────────────────────────────────────────────────

  /** What a request would write in the row of a product: None for a column it does not name. */
  datatype Ecrits = Ecrits(nom: Option<string>, stock: Option<real>, unite: Option<Option<string>>, retire: bool, efface: bool)

  const RIEN := Ecrits(None, None, None, false, false)

  /** What request r writes in product p of merchant m, from the request and the keys already used. */
  ghost function EcritsPar(s: Etat, r: Requete, m: Marchand, p: nat): Ecrits {
    match r
    case RProduit(q, id, c) =>
      if q == m && id == p then Ecrits(if c.nom.Some? && !ToutBlanc(c.nom.value) then c.nom else None, c.stock, c.unite, false, false) else RIEN
    case RStock(q, id, nom, x, u, cle) =>
      if q == m && id == p && (cle.Some? ==> cle.value !in s.clesStock)
      then Ecrits(nom, x, if u.Some? then Some(u) else None, false, false) else RIEN
    case RSupprimer(q, id) => if q == m && id == p then RIEN.(retire := true) else RIEN
    case REffacer(q, id) => if q == m && id == p then RIEN.(efface := true) else RIEN
    case _ => RIEN
  }

  function Ecrire(p: Produit, e: Ecrits): Option<Produit> {
    if e.efface then None
    else Some(Produit(p.marchand, if e.nom.Some? then e.nom.value else p.nom, if e.stock.Some? then e.stock else p.stock,
                      if e.unite.Some? then e.unite.value else p.unite, p.actif && !e.retire))
  }

  /** A product request writes, in each row, exactly the columns it names for it, and moves nothing else. */
  lemma ProduitEcrit(s: Etat, r: Requete, p: nat)
    requires SurProduits(r) && Existe(s.produits, p)
    ensures var s' := Etape(s, r);
      && p < |s'.produits| && s'.produits[p] == Ecrire(s.produits[p].value, EcritsPar(s, r, s.produits[p].value.marchand, p))
      && s' == s.(produits := s'.produits, clesStock := s'.clesStock)
  {
    if r.RProduit? { ColonnesEcrites(s, r.m, r.id, r.colonnes, p); } else if r.RStock? { StockEcrit(s, r, p); }
  }

  lemma ColonnesEcrites(s: Etat, m: Marchand, id: nat, c: Colonnes, p: nat)
    requires Existe(s.produits, p)
    ensures var s' := ModifierProduit(s, m, id, c).0;
      && p < |s'.produits| && s' == s.(produits := s'.produits)
      && s'.produits[p] == Ecrire(s.produits[p].value, EcritsPar(s, RProduit(m, id, c), s.produits[p].value.marchand, p))
  {
    if c.nom.Some? { BlancOuNon(c.nom.value); }
  }

  lemma StockEcrit(s: Etat, r: Requete, p: nat)
    requires Existe(s.produits, p) && r.RStock?
    ensures var s' := Etape(s, r);
      && p < |s'.produits| && s' == s.(produits := s'.produits, clesStock := s'.clesStock)
      && s'.produits[p] == Ecrire(s.produits[p].value, EcritsPar(s, r, s.produits[p].value.marchand, p))
  {
  }

  /** The replies: an update of the till is refused exactly when it names nothing or another's product; a keyed one says whether its key was known. */
  lemma ReponsesExactes(s: Etat, m: Marchand, id: nat, c: Colonnes, nom: Option<string>, q: Option<real>, u: Option<string>, cle: Option<string>)
    ensures var (s', rep) := ModifierProduit(s, m, id, c);
      var nomme := (c.nom.Some? && !ToutBlanc(c.nom.value)) || c.stock.Some? || c.unite.Some? || c.autre;
      && (rep == Refusee(Invalide) <==> !nomme)
      && (rep == Refusee(Introuvable) <==> nomme && !(id < |s.produits| && s.produits[id].Some? && s.produits[id].value.marchand == m))
      && (rep.Refusee? ==> s' == s)
    ensures var (s', rejoue) := MajStock(s, m, id, nom, q, u, cle);
      && (rejoue <==> cle.Some? && cle.value in s.clesStock) && (rejoue ==> s' == s)
      && s'.clesStock == if cle.Some? then s.clesStock + {cle.value} else s.clesStock
  {
    if c.nom.Some? { BlancOuNon(c.nom.value); }
  }

  // ── Over runs ───────────────────────────────────────────────────────────

  /** The columns of a product after a run, its stock aside: each is the last one a request wrote. */
  ghost function EcritsDuRun(s: Etat, rs: seq<Requete>, p: Produit, id: nat): Option<Produit> {
    if rs == [] then Some(p)
    else
      var a := EcritsDuRun(s, rs[..|rs| - 1], p, id);
      if a.None? then None else Ecrire(a.value, EcritsPar(Executer(s, rs[..|rs| - 1]), rs[|rs| - 1], p.marchand, id))
  }

  predicate AuStockPres(a: Option<Produit>, b: Option<Produit>) {
    if a.None? then b.None? else b.Some? && a.value.(stock := None) == b.value.(stock := None)
  }

  lemma EtapeColonnes(s: Etat, r: Requete, id: nat, a: Option<Produit>)
    requires id < |s.produits| && AuStockPres(s.produits[id], a)
    ensures id < |Etape(s, r).produits|
    ensures AuStockPres(Etape(s, r).produits[id], if a.None? then None else Ecrire(a.value, EcritsPar(s, r, a.value.marchand, id)))
  {
    if a.None? { StockRuns.ResteEfface(s, r, id); }
    else if SurProduits(r) { ProduitEcrit(s, r, id); }
    else { StockRuns.HorsProduits(s, r); }
  }

  lemma {:induction false} MemeProprietaire(s: Etat, rs: seq<Requete>, p: Produit, id: nat)
    ensures EcritsDuRun(s, rs, p, id).Some? ==> EcritsDuRun(s, rs, p, id).value.marchand == p.marchand
  {
    if rs != [] { MemeProprietaire(s, rs[..|rs| - 1], p, id); }
  }

  /**
   Over every run: a product's name and unit are the last its owner wrote, it is on sale exactly when she did not
   withdraw it, and gone exactly when she deleted it. Nothing else, no sale and no cancellation, touches them.
   */
  lemma {:induction false} RunColonnes(s: Etat, rs: seq<Requete>, id: nat)
    requires Existe(s.produits, id)
    ensures id < |Executer(s, rs).produits|
    ensures AuStockPres(Executer(s, rs).produits[id], EcritsDuRun(s, rs, s.produits[id].value, id))
  {
    if rs != [] {
      var a := rs[..|rs| - 1];
      RunColonnes(s, a, id);
      MemeProprietaire(s, a, s.produits[id].value, id);
      EtapeColonnes(Executer(s, a), rs[|rs| - 1], id, EcritsDuRun(s, a, s.produits[id].value, id));
    }
  }
}
