/** The mirror of the master catalogue and the adoption of its references (catalogue-maitre.service.ts). */
module Miroir {
  import opened Commun

  /** A row of catalogue_maitre, under its default_code; synced_at is not kept. */
  datatype Reference = Reference(nom: string, categorie: Option<string>, odoo: int, actif: bool)

  type Maitre = map<string, Reference>

  /** An entry of the list read from Odoo. */
  datatype Entree = Entree(code: string, ref: Reference)

  datatype Produit = Produit(
    marchand: nat, nom: string, prix: real, prixAchat: real, categorie: string, stock: real, unite: string, code: Option<string>)

  /** A deleted product leaves None at its id, which is never given again. */
  datatype Catalogue = Catalogue(maitre: Maitre, produits: seq<Option<Produit>>)

  datatype Bilan = Bilan(lues: nat, creees: nat, majs: nat, desactivees: nat)

  // ── synchroniser ────────────────────────────────────────────────────────

  /** INSERT … ON CONFLICT (default_code) DO UPDATE, entry by entry. */
  function Verser(m: Maitre, es: seq<Entree>): Maitre {
    if es == [] then m else Verser(m, es[..|es| - 1])[es[|es| - 1].code := es[|es| - 1].ref]
  }

  /** How many of those were insertions (xmax = 0). */
  function Inserees(m: Maitre, es: seq<Entree>): (n: nat)
    ensures n <= |es|
  {
    if es == [] then 0
    else Inserees(m, es[..|es| - 1]) + if es[|es| - 1].code in Verser(m, es[..|es| - 1]) then 0 else 1
  }

  function Codes(es: seq<Entree>): set<string> { set i | 0 <= i < |es| :: es[i].code }

  /** The rows the deactivation touches: active and not in the list. */
  function Disparues(m: Maitre, codes: set<string>): set<string> { set c | c in m && m[c].actif && c !in codes }

  function Desactiver(m: Maitre, codes: set<string>): Maitre {
    map c | c in m :: if c in codes then m[c] else m[c].(actif := false)
  }

  /** An empty list deactivates nothing. */
  function Synchroniser(s: Catalogue, es: seq<Entree>): (Catalogue, Bilan) {
    var verse := Verser(s.maitre, es);
    var creees := Inserees(s.maitre, es);
    if es == [] then (s, Bilan(0, 0, 0, 0))
    else (s.(maitre := Desactiver(verse, Codes(es))), Bilan(|es|, creees, |es| - creees, |Disparues(verse, Codes(es))|))
  }

  /** What the list says of a code in the end. */
  function Derniere(es: seq<Entree>, code: string): Option<Reference> {
    if es == [] then None
    else if es[|es| - 1].code == code then Some(es[|es| - 1].ref)
    else Derniere(es[..|es| - 1], code)
  }

  lemma {:induction false} VerserExact(m: Maitre, es: seq<Entree>, c: string)
    ensures c in Codes(es) <==> Derniere(es, c).Some?
    ensures c in Verser(m, es) <==> c in m || Derniere(es, c).Some?
    ensures c in Verser(m, es) ==> Verser(m, es)[c] == if Derniere(es, c).Some? then Derniere(es, c).value else m[c]
  {
    if es != [] {
      VerserExact(m, es[..|es| - 1], c);
      assert es[|es| - 1].code in Codes(es);
      assert forall i :: 0 <= i < |es| - 1 ==> es[..|es| - 1][i] == es[i];
    }
  }

  /** The whole mirror after a non-empty list: no code lost, listed codes as last listed, all others inactive. */
  lemma MiroirExact(s: Catalogue, es: seq<Entree>, c: string)
    requires es != []
    ensures var m := Synchroniser(s, es).0.maitre;
      && (c in m <==> c in s.maitre || Derniere(es, c).Some?)
      && (c in m ==> m[c] == if Derniere(es, c).Some? then Derniere(es, c).value else s.maitre[c].(actif := false))
      && ((c in m && m[c].actif) <==> (Derniere(es, c).Some? && Derniere(es, c).value.actif))
  {
    VerserExact(s.maitre, es, c);
  }

  lemma {:induction false} InsereesCompte(m: Maitre, es: seq<Entree>)
    ensures |Verser(m, es).Keys| == |m.Keys| + Inserees(m, es)
  {
    if es != [] {
      var v, c := Verser(m, es[..|es| - 1]), es[|es| - 1].code;
      InsereesCompte(m, es[..|es| - 1]);
      assert Verser(m, es).Keys == v.Keys + {c};
      if c in v { assert v.Keys + {c} == v.Keys; }
    }
  }

  /** The references that were proposed before and that the list leaves out. */
  function Retirees(s: Catalogue, es: seq<Entree>): set<string> {
    set c | c in s.maitre && s.maitre[c].actif && Derniere(es, c).None?
  }

  lemma RetireeOuNon(s: Catalogue, es: seq<Entree>, c: string)
    ensures c in Retirees(s, es) <==> c in Disparues(Verser(s.maitre, es), Codes(es))
  {
    VerserExact(s.maitre, es, c);
  }

  /** The report is true: all that was read was created or updated, the mirror grew by what was created, the withdrawn are counted. */
  lemma BilanExact(s: Catalogue, es: seq<Entree>)
    ensures var (s', b) := Synchroniser(s, es);
      && b.lues == |es| == b.creees + b.majs
      && |s'.maitre.Keys| == |s.maitre.Keys| + b.creees
      && b.desactivees == (if es == [] then 0 else |Retirees(s, es)|)
      && s'.produits == s.produits && (es == [] ==> s' == s)
  {
    if es != [] {
      InsereesCompte(s.maitre, es);
      assert Synchroniser(s, es).0.maitre.Keys == Verser(s.maitre, es).Keys;
      forall c ensures c in Retirees(s, es) <==> c in Disparues(Verser(s.maitre, es), Codes(es)) { RetireeOuNon(s, es, c); }
      assert Retirees(s, es) == Disparues(Verser(s.maitre, es), Codes(es));
    }
  }

  lemma {:induction false} RienAInserer(m: Maitre, es: seq<Entree>)
    requires forall i :: 0 <= i < |es| ==> es[i].code in m
    ensures Inserees(m, es) == 0
  {
    if es != [] {
      RienAInserer(m, es[..|es| - 1]);
      VerserExact(m, es[..|es| - 1], es[|es| - 1].code);
    }
  }

  /** Running the same list again creates and deactivates nothing, and leaves every row as it is. */
  lemma Rejouee(s: Catalogue, es: seq<Entree>)
    ensures var s' := Synchroniser(s, es).0; Synchroniser(s', es) == (s', Bilan(|es|, 0, |es|, 0))
  {
    var s' := Synchroniser(s, es).0;
    if es != [] {
      var (s2, b) := Synchroniser(s', es);
      forall i | 0 <= i < |es| ensures es[i].code in s'.maitre {
        assert es[i].code in Codes(es);
        VerserExact(s.maitre, es, es[i].code);
      }
      RienAInserer(s'.maitre, es);
      forall c ensures c in s2.maitre <==> c in s'.maitre { MiroirExact(s, es, c); MiroirExact(s', es, c); }
      forall c | c in s'.maitre ensures s2.maitre[c] == s'.maitre[c] { MiroirExact(s, es, c); MiroirExact(s', es, c); }
      assert s2.maitre == s'.maitre;
      forall c ensures c !in Disparues(Verser(s'.maitre, es), Codes(es)) {
        VerserExact(s'.maitre, es, c);
        MiroirExact(s, es, c);
      }
      assert Disparues(Verser(s'.maitre, es), Codes(es)) == {};
    }
  }

  /** A later list decides alone which references can be adopted: nothing of the earlier one shows through. */
  lemma SeuleLaDerniereListeCompte(s: Catalogue, avant: seq<Entree>, es: seq<Entree>, c: string)
    requires es != []
    ensures var (m, m') := (Synchroniser(s, es).0.maitre, Synchroniser(Synchroniser(s, avant).0, es).0.maitre);
      (c in m && m[c].actif) <==> (c in m' && m'[c].actif)
  {
    MiroirExact(s, es, c);
    MiroirExact(Synchroniser(s, avant).0, es, c);
  }

  // ── adopter ─────────────────────────────────────────────────────────────

  const PRIX_MAX := 100_000_000.0

  datatype Demande = Demande(
    code: string, prix: Option<real>, unite: Option<string>, stock: Option<real>, prixAchat: Option<real>)

  datatype Reponse = Adopte(id: nat) | DemandeInvalide | Inconnue | DejaAdoptee(id: nat)

  predicate Valide(d: Demande) {
    && 0 < |d.code| <= 200
    && d.prix.Some? && 0.0 < d.prix.value <= PRIX_MAX
    && (d.unite.Some? ==> |d.unite.value| <= 40)
    && (d.stock.Some? ==> d.stock.value >= 0.0)
    && (d.prixAchat.Some? ==> d.prixAchat.value >= 0.0)
  }

  /** The row is there, the merchant's, under that code. */
  predicate EstAdopte(p: Option<Produit>, marchand: nat, code: string) {
    p.Some? && p.value.marchand == marchand && p.value.code == Some(code)
  }

  function Chercher(ps: seq<Option<Produit>>, marchand: nat, code: string): (r: Option<nat>)
    ensures r.Some? ==> r.value < |ps| && EstAdopte(ps[r.value], marchand, code)
    ensures r.None? ==> forall i :: 0 <= i < |ps| ==> !EstAdopte(ps[i], marchand, code)
  {
    if ps == [] then None
    else if EstAdopte(ps[|ps| - 1], marchand, code) then Some(|ps| - 1)
    else Chercher(ps[..|ps| - 1], marchand, code)
  }

  function OuDefaut<T>(o: Option<T>, d: T): T { if o.Some? then o.value else d }

  function Adopter(s: Catalogue, marchand: nat, d: Demande): (Catalogue, Reponse) {
    var code := Rogner(d.code);
    if !Valide(d) then (s, DemandeInvalide)
    else if code !in s.maitre || !s.maitre[code].actif then (s, Inconnue)
    else
      var existant := Chercher(s.produits, marchand, code);
      if existant.Some? then (s, DejaAdoptee(existant.value))
      else
        var ref := s.maitre[code];
        (s.(produits := s.produits +
                        [Some(Produit(marchand, ref.nom, d.prix.value, OuDefaut(d.prixAchat, 0.0), OuDefaut(ref.categorie, "Général"),
                                      OuDefaut(d.stock, 0.0), OuDefaut(d.unite, "unité"), Some(code)))]),
         Adopte(|s.produits|))
  }

  /** Every adopted product keeps an existing master code, and a merchant has one product per code. */
  ghost predicate LoiAdoption(s: Catalogue) {
    && (forall i :: 0 <= i < |s.produits| && s.produits[i].Some? && s.produits[i].value.code.Some? ==>
          s.produits[i].value.code.value in s.maitre)
    && (forall i, j :: 0 <= i < j < |s.produits| && s.produits[i].Some? && s.produits[j].Some? && s.produits[i].value.code.Some? ==>
          s.produits[i].value.marchand != s.produits[j].value.marchand || s.produits[i].value.code != s.produits[j].value.code)
  }

  datatype Evenement =
    | Rafraichir(es: seq<Entree>)
    | Adoption(marchand: nat, d: Demande)
    | AutreProduit(p: Produit)
    | Modifier(id: nat, nom: string, prix: real, stock: real)
    | Effacer(marchand: nat, id: nat)

  predicate EstA(s: Catalogue, id: nat, marchand: nat) {
    id < |s.produits| && s.produits[id].Some? && s.produits[id].value.marchand == marchand
  }

  /** The other product routes create without a code, never write the code of a row, and delete a row for its owner. */
  function Apres(s: Catalogue, e: Evenement): Catalogue {
    match e
    case Rafraichir(es) => Synchroniser(s, es).0
    case Adoption(m, d) => Adopter(s, m, d).0
    case AutreProduit(p) => s.(produits := s.produits + [Some(p.(code := None))])
    case Modifier(id, nom, prix, stock) =>
      if id < |s.produits| && s.produits[id].Some?
      then s.(produits := s.produits[id := Some(s.produits[id].value.(nom := nom, prix := prix, stock := stock))])
      else s
    case Effacer(m, id) => if EstA(s, id, m) then s.(produits := s.produits[id := None]) else s
  }

  function Run(s: Catalogue, es: seq<Evenement>): Catalogue {
    if es == [] then s else Apres(Run(s, es[..|es| - 1]), es[|es| - 1])
  }

  /** No master code disappears, a product still there keeps its owner and its code, and a deleted one never comes back. */
  ghost predicate Prolonge(s: Catalogue, s': Catalogue) {
    && (forall c :: c in s.maitre ==> c in s'.maitre)
    && |s.produits| <= |s'.produits|
    && (forall i :: 0 <= i < |s.produits| && s'.produits[i].Some? ==>
          && s.produits[i].Some?
          && s'.produits[i].value.marchand == s.produits[i].value.marchand && s'.produits[i].value.code == s.produits[i].value.code)
  }

  lemma EtapeAdoption(s: Catalogue, e: Evenement)
    requires LoiAdoption(s)
    ensures LoiAdoption(Apres(s, e)) && Prolonge(s, Apres(s, e))
  {
    if e.Rafraichir? && e.es != [] {
      forall c ensures c in s.maitre ==> c in Apres(s, e).maitre { MiroirExact(s, e.es, c); }
    }
  }

  /** Over every run, whatever Odoo lists, withdraws or lists again, and whatever the merchants delete. */
  lemma {:induction false} RunAdoption(s: Catalogue, es: seq<Evenement>)
    requires LoiAdoption(s)
    ensures LoiAdoption(Run(s, es)) && Prolonge(s, Run(s, es))
  {
    if es != [] {
      RunAdoption(s, es[..|es| - 1]);
      EtapeAdoption(Run(s, es[..|es| - 1]), es[|es| - 1]);
    }
  }

  /** The product of the merchant's last successful adoption of the code in the run; `premier` when there is none. */
  function DerniereAdoption(s: Catalogue, es: seq<Evenement>, marchand: nat, code: string, premier: nat): nat {
    if es == [] then premier
    else
      var a, e := es[..|es| - 1], es[|es| - 1];
      if e.Adoption? && e.marchand == marchand && Rogner(e.d.code) == code && Adopter(Run(s, a), marchand, e.d).1.Adopte?
      then Adopter(Run(s, a), marchand, e.d).1.id
      else DerniereAdoption(s, a, marchand, code, premier)
  }

  /** Only the product of the last adoption can still be there under that code. */
  ghost predicate SeulCandidat(s: Catalogue, marchand: nat, code: string, id: nat) {
    && id < |s.produits|
    && (s.produits[id].Some? ==> EstAdopte(s.produits[id], marchand, code))
    && (forall i :: 0 <= i < |s.produits| && EstAdopte(s.produits[i], marchand, code) ==> i == id)
  }

  lemma CandidatSuit(s: Catalogue, e: Evenement, marchand: nat, code: string, id: nat)
    requires SeulCandidat(s, marchand, code, id)
    ensures SeulCandidat(Apres(s, e), marchand, code,
              if e.Adoption? && e.marchand == marchand && Rogner(e.d.code) == code && Adopter(s, marchand, e.d).1.Adopte?
              then Adopter(s, marchand, e.d).1.id else id)
  {
  }

  lemma {:induction false} CandidatTient(s: Catalogue, es: seq<Evenement>, marchand: nat, code: string, premier: nat)
    requires SeulCandidat(s, marchand, code, premier)
    ensures SeulCandidat(Run(s, es), marchand, code, DerniereAdoption(s, es, marchand, code, premier))
  {
    if es != [] {
      var a := es[..|es| - 1];
      CandidatTient(s, a, marchand, code, premier);
      CandidatSuit(Run(s, a), es[|es| - 1], marchand, code, DerniereAdoption(s, a, marchand, code, premier));
    }
  }

  /** What the request must bring: a code, a price above 0, and no negative stock or cost. */
  predicate Recevable(d: Demande) {
    && 1 <= |d.code| <= 200 && d.prix.Some? && 0.0 < d.prix.value <= 100_000_000.0
    && (d.unite.None? || |d.unite.value| <= 40)
    && (d.stock.None? || d.stock.value >= 0.0) && (d.prixAchat.None? || d.prixAchat.value >= 0.0)
  }

  /**
   An adoption succeeds exactly for a receivable request, an active reference and a merchant with no product of that
   code; each refusal has its condition and changes nothing. The new product takes its name and category from the
   master and everything else from the request, or from the default of what it leaves out.
   */
  lemma AdoptionReussit(s: Catalogue, marchand: nat, d: Demande)
    ensures var (s', r) := Adopter(s, marchand, d);
      var code := Rogner(d.code);
      var active := code in s.maitre && s.maitre[code].actif;
      var libre := forall i :: 0 <= i < |s.produits| ==> !EstAdopte(s.produits[i], marchand, code);
      && (r.Adopte? <==> Recevable(d) && active && libre)
      && (r.DemandeInvalide? <==> !Recevable(d)) && (r.Inconnue? <==> Recevable(d) && !active)
      && (r.DejaAdoptee? <==> Recevable(d) && active && !libre)
      && (r.DejaAdoptee? ==> r.id < |s.produits| && EstAdopte(s.produits[r.id], marchand, code))
      && (!r.Adopte? ==> s' == s)
      && (r.Adopte? ==>
            && r.id == |s.produits| && |s'.produits| == |s.produits| + 1 && s'.maitre == s.maitre && s'.produits[..r.id] == s.produits
            && EstAdopte(s'.produits[r.id], marchand, code)
            && var p := s'.produits[r.id].value;
               && p.nom == s.maitre[code].nom && Some(p.prix) == d.prix
               && p.categorie == (if s.maitre[code].categorie.Some? then s.maitre[code].categorie.value else "Général")
               && p.prixAchat == (if d.prixAchat.Some? then d.prixAchat.value else 0.0)
               && p.stock == (if d.stock.Some? then d.stock.value else 0.0)
               && p.unite == (if d.unite.Some? then d.unite.value else "unité"))
  {
  }

  /**
   A reference once adopted can be adopted again by that merchant if and only if the product of her last adoption of
   it was deleted: for a valid request on an active reference, after any run. Otherwise the refusal names that product.
   */
  lemma ReadoptionSsiEfface(s: Catalogue, marchand: nat, d: Demande, es: seq<Evenement>, d': Demande)
    requires LoiAdoption(s) && Adopter(s, marchand, d).1.Adopte? && Rogner(d'.code) == Rogner(d.code)
    ensures var s1 := Adopter(s, marchand, d).0;
      var s', code := Run(s1, es), Rogner(d.code);
      var id := DerniereAdoption(s1, es, marchand, code, Adopter(s, marchand, d).1.id);
      && code in s'.maitre && id < |s'.produits|
      && (Valide(d') && s'.maitre[code].actif ==>
            Adopter(s', marchand, d').1 == if s'.produits[id].None? then Adopte(|s'.produits|) else DejaAdoptee(id))
      && (!(Valide(d') && s'.maitre[code].actif) ==> !Adopter(s', marchand, d').1.Adopte?)
      && (Adopter(s', marchand, d').1.Adopte? ==>
            EstAdopte(Adopter(s', marchand, d').0.produits[|s'.produits|], marchand, code)
            && Adopter(s', marchand, d').0.produits[|s'.produits|].value.nom == s'.maitre[code].nom)
  {
    var s1, id := Adopter(s, marchand, d).0, Adopter(s, marchand, d).1.id;
    AdoptionReussit(s, marchand, d);
    EtapeAdoption(s, Adoption(marchand, d));
    RunAdoption(s1, es);
    CandidatTient(s1, es, marchand, Rogner(d.code), id);
    AdoptionReussit(Run(s1, es), marchand, d');
  }

  lemma EtapeEfface(s: Catalogue, e: Evenement, id: nat)
    requires id < |s.produits|
    ensures var m := if s.produits[id].Some? then s.produits[id].value.marchand else 0;
      && id < |Apres(s, e).produits|
      && if s.produits[id].None? || e == Effacer(m, id) then Apres(s, e).produits[id].None? else EstA(Apres(s, e), id, m)
  {
  }

  /** Over every run a product's row is gone exactly when its owner asked for its deletion. */
  lemma {:induction false} EffaceSsiDemande(s: Catalogue, es: seq<Evenement>, id: nat, m: nat)
    requires EstA(s, id, m)
    ensures id < |Run(s, es).produits|
    ensures if Effacer(m, id) in es then Run(s, es).produits[id].None? else EstA(Run(s, es), id, m)
  {
    if es != [] {
      var n := |es| - 1;
      EffaceSsiDemande(s, es[..n], id, m);
      assert es == es[..n] + [es[n]];
      EtapeEfface(Run(s, es[..n]), es[n], id);
    }
  }

  /**
   While she adopts it no second time, the condition is that she deleted the product: a reference adopted once is
   proposed to her again exactly after a deletion, and the second product gets its own price.
   */
  lemma UneSeuleAdoptionSaufEffacement(s: Catalogue, marchand: nat, d: Demande, es: seq<Evenement>, d': Demande)
    requires LoiAdoption(s) && Adopter(s, marchand, d).1.Adopte? && Rogner(d'.code) == Rogner(d.code)
    requires DerniereAdoption(Adopter(s, marchand, d).0, es, marchand, Rogner(d.code), Adopter(s, marchand, d).1.id)
          == Adopter(s, marchand, d).1.id
    requires Valide(d') && Rogner(d.code) in Run(Adopter(s, marchand, d).0, es).maitre
    requires Run(Adopter(s, marchand, d).0, es).maitre[Rogner(d.code)].actif
    ensures Adopter(Run(Adopter(s, marchand, d).0, es), marchand, d').1.Adopte? <==> Effacer(marchand, Adopter(s, marchand, d).1.id) in es
  {
    var s1, id := Adopter(s, marchand, d).0, Adopter(s, marchand, d).1.id;
    ReadoptionSsiEfface(s, marchand, d, es, d');
    EffaceSsiDemande(s1, es, id, marchand);
  }

  /** Adopted, deleted, adopted again: the second adoption succeeds, as a new product. */
  lemma AdopterEffacerAdopter(s: Catalogue, marchand: nat, d: Demande)
    requires LoiAdoption(s) && Adopter(s, marchand, d).1.Adopte?
    ensures var s1, id := Adopter(s, marchand, d).0, Adopter(s, marchand, d).1.id;
      Adopter(Run(s1, [Effacer(marchand, id)]), marchand, d).1 == Adopte(id + 1)
  {
    var s1, id := Adopter(s, marchand, d).0, Adopter(s, marchand, d).1.id;
    var es := [Effacer(marchand, id)];
    assert es[..0] == [] && Run(s1, es) == Apres(s1, es[0]);
    ReadoptionSsiEfface(s, marchand, d, es, d);
    assert DerniereAdoption(s1, es, marchand, Rogner(d.code), id) == id;
  }

  // ── The service ─────────────────────────────────────────────────────────

  class ServiceMiroir {
    var maitre: Maitre
    var produits: seq<Option<Produit>>

    function Vue(): Catalogue
      reads this
    {
      Catalogue(maitre, produits)
    }

    constructor ()
      ensures Vue() == Catalogue(map[], [])
    {
      maitre, produits := map[], [];
    }

    /** `references` is what the gateway lists. */
    method SynchroniserMiroir(references: seq<Entree>) returns (b: Bilan)
      modifies this`maitre
      ensures (Vue(), b) == Synchroniser(old(Vue()), references)
    {
      var creees, majs, i := 0, 0, 0;
      while i < |references|
        invariant 0 <= i <= |references|
        invariant maitre == Verser(old(maitre), references[..i])
        invariant creees == Inserees(old(maitre), references[..i]) && creees + majs == i
      {
        var e := references[i];
        assert references[..i + 1][..i] == references[..i];
        if e.code in maitre { majs := majs + 1; } else { creees := creees + 1; }
        maitre := maitre[e.code := e.ref];
        i := i + 1;
      }
      assert references[..|references|] == references;
      var desactivees := 0;
      if |references| > 0 {
        var codes := Codes(references);
        desactivees := |Disparues(maitre, codes)|;
        maitre := Desactiver(maitre, codes);
      }
      b := Bilan(|references|, creees, majs, desactivees);
    }

    method AdopterReference(marchand: nat, d: Demande) returns (r: Reponse)
      modifies this`produits
      ensures (Vue(), r) == Adopter(old(Vue()), marchand, d)
    {
      if !Valide(d) { return DemandeInvalide; }
      var code := Rogner(d.code);
      if code !in maitre || !maitre[code].actif { return Inconnue; }
      var existant := Chercher(produits, marchand, code);
      if existant.Some? { return DejaAdoptee(existant.value); }
      var ref := maitre[code];
      produits := produits + [Some(Produit(marchand, ref.nom, d.prix.value, OuDefaut(d.prixAchat, 0.0), OuDefaut(ref.categorie, "Général"),
                                           OuDefaut(d.stock, 0.0), OuDefaut(d.unite, "unité"), Some(code)))];
      return Adopte(|produits| - 1);
    }
  }
}
