/**
 Cancellations: who may cancel what, every row the restitution leaves in the products and in the ledger, and the list
 it answers with.
 */
module AnnulationLois {
  import opened Commun
  import opened Tables
  import opened Sommes
  import opened Stock
  import opened StockLois
  import opened Caisse
  import Routes

  // ── The columns a restitution copies from the sale's rows ───────────────

  predicate DeLaVente(r: Mouvement, tx: nat, p: nat) { r.transaction == tx && r.produit == Some(p) }

  lemma {:induction false} AvantTransitif(a: string, b: string, c: string)
    requires Avant(a, b) && Avant(b, c)
    ensures Avant(a, c)
    decreases |b|
  {
    if a != [] && a[0] == b[0] == c[0] { AvantTransitif(a[1..], b[1..], c[1..]); }
  }

  lemma {:induction false} AvantTotal(a: string, b: string)
    ensures Avant(a, b) || Avant(b, a) || a == b
    ensures !(Avant(a, b) && Avant(b, a))
    decreases |a|
  {
    if a != [] && b != [] && a[0] == b[0] {
      AvantTotal(a[1..], b[1..]);
      assert a == [a[0]] + a[1..] && b == [b[0]] + b[1..];
    }
  }

  /** The greatest text of the two: one of them, and no text is after both but after it. */
  lemma MaxTexteBorne(a: string, b: string, x: string)
    ensures MaxTexte(a, b) == a || MaxTexte(a, b) == b
    ensures !Avant(MaxTexte(a, b), a) && !Avant(MaxTexte(a, b), b)
    ensures !Avant(a, x) ==> !Avant(MaxTexte(a, b), x)
  {
    AvantTotal(a, b);
    AvantTotal(a, a);
    AvantTotal(b, b);
    if Avant(a, b) && Avant(b, x) { AvantTransitif(a, b, x); }
  }

  /** A description comes from the sale's rows for the product, and none of its columns is below theirs. */
  ghost predicate Decrit(ms: seq<Mouvement>, tx: nat, p: nat, marchand: Marchand, nom: string, unite: Option<string>) {
    && (exists k :: 0 <= k < |ms| && DeLaVente(ms[k], tx, p) && ms[k].marchand == marchand)
    && (exists k :: 0 <= k < |ms| && DeLaVente(ms[k], tx, p) && ms[k].nom == nom)
    && (unite.Some? ==> exists k :: 0 <= k < |ms| && DeLaVente(ms[k], tx, p) && ms[k].unite == unite)
    && (forall k :: 0 <= k < |ms| && DeLaVente(ms[k], tx, p) ==>
          && ms[k].marchand <= marchand && !Avant(nom, ms[k].nom)
          && (ms[k].unite.Some? ==> unite.Some? && !Avant(unite.value, ms[k].unite.value)))
  }

  lemma DecritPremier(ms: seq<Mouvement>, r: Mouvement, tx: nat, p: nat)
    requires DeLaVente(r, tx, p) && forall k :: 0 <= k < |ms| ==> !DeLaVente(ms[k], tx, p)
    ensures Decrit(ms + [r], tx, p, r.marchand, r.nom, r.unite)
  {
    var n := ms + [r];
    assert n[|ms|] == r;
    AvantTotal(r.nom, r.nom);
    if r.unite.Some? { AvantTotal(r.unite.value, r.unite.value); }
  }

  lemma DecritSuite(ms: seq<Mouvement>, r: Mouvement, tx: nat, p: nat, d: Description)
    requires Decrit(ms, tx, p, d.marchand, d.nom, d.unite) && DeLaVente(r, tx, p)
    ensures Decrit(ms + [r], tx, p, if d.marchand < r.marchand then r.marchand else d.marchand, MaxTexte(d.nom, r.nom), MaxUnite(d.unite, r.unite))
  {
    var n, m, nom, u := ms + [r], if d.marchand < r.marchand then r.marchand else d.marchand, MaxTexte(d.nom, r.nom), MaxUnite(d.unite, r.unite);
    var i :| 0 <= i < |ms| && DeLaVente(ms[i], tx, p) && ms[i].marchand == d.marchand;
    var j :| 0 <= j < |ms| && DeLaVente(ms[j], tx, p) && ms[j].nom == d.nom;
    assert n[i] == ms[i] && n[j] == ms[j] && n[|ms|] == r;
    MaxTexteBorne(d.nom, r.nom, r.nom);
    if d.unite.Some? {
      var l :| 0 <= l < |ms| && DeLaVente(ms[l], tx, p) && ms[l].unite == d.unite;
      assert n[l] == ms[l];
    }
    if r.unite.Some? { AvantTotal(r.unite.value, r.unite.value); }
    if d.unite.Some? && r.unite.Some? { MaxTexteBorne(d.unite.value, r.unite.value, r.unite.value); }
    forall k | 0 <= k < |n| && DeLaVente(n[k], tx, p)
      ensures n[k].marchand <= m && !Avant(nom, n[k].nom) && (n[k].unite.Some? ==> u.Some? && !Avant(u.value, n[k].unite.value))
    {
      if k < |ms| {
        assert n[k] == ms[k];
        MaxTexteBorne(d.nom, r.nom, ms[k].nom);
        if d.unite.Some? && r.unite.Some? && ms[k].unite.Some? { MaxTexteBorne(d.unite.value, r.unite.value, ms[k].unite.value); }
      }
    }
  }

  lemma DecritAilleurs(ms: seq<Mouvement>, r: Mouvement, tx: nat, p: nat, d: Description)
    requires Decrit(ms, tx, p, d.marchand, d.nom, d.unite) && !DeLaVente(r, tx, p)
    ensures Decrit(ms + [r], tx, p, d.marchand, d.nom, d.unite)
  {
    var n := ms + [r];
    var i :| 0 <= i < |ms| && DeLaVente(ms[i], tx, p) && ms[i].marchand == d.marchand;
    var j :| 0 <= j < |ms| && DeLaVente(ms[j], tx, p) && ms[j].nom == d.nom;
    assert n[i] == ms[i] && n[j] == ms[j];
    if d.unite.Some? {
      var l :| 0 <= l < |ms| && DeLaVente(ms[l], tx, p) && ms[l].unite == d.unite;
      assert n[l] == ms[l];
    }
  }

  lemma {:induction false} GroupeDecrit(ms: seq<Mouvement>, tx: nat, p: nat)
    ensures var g := Groupe(ms, tx, p);
      && (g.None? ==> forall k :: 0 <= k < |ms| ==> !DeLaVente(ms[k], tx, p))
      && (g.Some? ==> Decrit(ms, tx, p, g.value.marchand, g.value.nom, g.value.unite))
  {
    if ms != [] {
      var a, r := ms[..|ms| - 1], ms[|ms| - 1];
      GroupeDecrit(a, tx, p);
      assert ms == a + [r];
      var g := Groupe(a, tx, p);
      if DeLaVente(r, tx, p) {
        if g.None? { DecritPremier(a, r, tx, p); } else { DecritSuite(a, r, tx, p, g.value); }
      } else if g.Some? { DecritAilleurs(a, r, tx, p, g.value); }
    }
  }

  // ── The restitution, row by row ─────────────────────────────────────────

  function RetrancheePar(tx: nat, p: nat): Mouvement -> real { (r: Mouvement) => if DeLaVente(r, tx, p) then r.retranchee else 0.0 }

  /** What the rows of sale tx say it still holds of product p. */
  function Tient(ms: seq<Mouvement>, tx: nat, p: nat): real { Somme(RetrancheePar(tx, p), ms) }

  lemma {:induction false} TientEstNet(ms: seq<Mouvement>, tx: nat, p: nat)
    ensures Tient(ms, tx, p) == Net(ms, tx, p)
  {
    if ms != [] { TientEstNet(ms[..|ms| - 1], tx, p); }
  }

  /** Product p gets something back: its row is there and the sale holds some of it. */
  predicate EstRendu(s: Etat, tx: nat, p: nat) { p < |s.produits| && s.produits[p].Some? && Tient(s.mouvements, tx, p) > 0.0 }

  ghost predicate RangDeRetour(s: Etat, tx: nat, p: nat, r: Mouvement)
    requires p < |s.produits|
  {
    && r.transaction == tx && r.produit == Some(p) && r.genre == Annulation && r.stockAvant == StockLu(s.produits[p])
    && r.demandee == Tient(s.mouvements, tx, p) && r.retranchee == 0.0 - r.demandee && r.manquant == 0.0
    && Decrit(s.mouvements, tx, p, r.marchand, r.nom, r.unite)
  }

  /** One new row, in product order, for each of the first n products that gets something back. */
  ghost predicate RetoursJusqua(s: Etat, ms': seq<Mouvement>, tx: nat, n: nat)
    requires n <= |s.produits|
    decreases n
  {
    if n == 0 then ms' == s.mouvements
    else if !EstRendu(s, tx, n - 1) then RetoursJusqua(s, ms', tx, n - 1)
    else ms' != [] && RangDeRetour(s, tx, n - 1, ms'[|ms'| - 1]) && RetoursJusqua(s, ms'[..|ms'| - 1], tx, n - 1)
  }

  ghost predicate ProduitsJusqua(s: Etat, ps': seq<Option<Produit>>, tx: nat, n: nat) {
    && |ps'| == |s.produits|
    && forall p: nat :: p < |ps'| ==>
         ps'[p] == if p < n && EstRendu(s, tx, p)
                   then Some(s.produits[p].value.(stock := Some(StockLu(s.produits[p]) + Tient(s.mouvements, tx, p)))) else s.produits[p]
  }

  lemma UnRetour(s: Etat, m: Etat, tx: nat, p: nat)
    requires p < |s.produits| && ProduitsJusqua(s, m.produits, tx, p)
    ensures var m' := RestituerUn(m, s.mouvements, tx, p);
      && ProduitsJusqua(s, m'.produits, tx, p + 1)
      && (!EstRendu(s, tx, p) ==> m'.mouvements == m.mouvements)
      && (EstRendu(s, tx, p) ==>
            |m'.mouvements| == |m.mouvements| + 1 && m'.mouvements[..|m.mouvements|] == m.mouvements
            && RangDeRetour(s, tx, p, m'.mouvements[|m.mouvements|]))
  {
    assert m.produits[p] == s.produits[p];
    TientEstNet(s.mouvements, tx, p);
    GroupeDecrit(s.mouvements, tx, p);
    if Groupe(s.mouvements, tx, p).None? { SansGroupeNetNul(s.mouvements, tx, p); }
  }

  lemma RetourDePlus(s: Etat, ms: seq<Mouvement>, ms': seq<Mouvement>, tx: nat, n: nat)
    requires 0 < n <= |s.produits| && RetoursJusqua(s, ms, tx, n - 1)
    requires if EstRendu(s, tx, n - 1)
             then |ms'| == |ms| + 1 && ms'[..|ms|] == ms && RangDeRetour(s, tx, n - 1, ms'[|ms|]) else ms' == ms
    ensures RetoursJusqua(s, ms', tx, n)
  {
  }

  lemma PasDeRetour(s: Etat, m: Etat, tx: nat, n: nat)
    requires 0 < n <= |s.produits| && RetoursJusqua(s, m.mouvements, tx, n - 1) && ProduitsJusqua(s, m.produits, tx, n - 1)
    ensures var m' := RestituerUn(m, s.mouvements, tx, n - 1);
      RetoursJusqua(s, m'.mouvements, tx, n) && ProduitsJusqua(s, m'.produits, tx, n)
  {
    UnRetour(s, m, tx, n - 1);
    RetourDePlus(s, m.mouvements, RestituerUn(m, s.mouvements, tx, n - 1).mouvements, tx, n);
  }

  lemma {:induction false} RetoursTiennent(s: Etat, tx: nat, n: nat)
    requires n <= |s.produits|
    ensures var m := RestituerJusqua(s, s.mouvements, tx, n); RetoursJusqua(s, m.mouvements, tx, n) && ProduitsJusqua(s, m.produits, tx, n)
  {
    if n > 0 {
      var m := RestituerJusqua(s, s.mouvements, tx, n - 1);
      assert RestituerJusqua(s, s.mouvements, tx, n) == RestituerUn(m, s.mouvements, tx, n - 1);
      RetoursTiennent(s, tx, n - 1);
      PasDeRetour(s, m, tx, n);
    }
  }

  /** A sale gave its stock back: the products and the ledger moved by that alone. */
  ghost predicate StockRendu(s: Etat, s': Etat, tx: nat) {
    && ProduitsJusqua(s, s'.produits, tx, |s.produits|) && RetoursJusqua(s, s'.mouvements, tx, |s.produits|)
    && s' == s.(ecritures := s'.ecritures, produits := s'.produits, mouvements := s'.mouvements)
  }

  /** Each product that is there and of which the sale holds some gets all of it, with one row that says so. */
  lemma RetourExact(s: Etat, es: seq<Ecriture>, tx: nat)
    ensures var s' := RestituerStock(s.(ecritures := es), tx); StockRendu(s, s', tx) && s'.ecritures == es
  {
    var s1 := s.(ecritures := es);
    var s' := RestituerStock(s1, tx);
    RetoursTiennent(s1, tx, |s.produits|);
    RetoursSansEcritures(s, s1, s'.mouvements, tx, |s.produits|);
    assert forall p: nat :: EstRendu(s1, tx, p) <==> EstRendu(s, tx, p);
  }

  lemma {:induction false} RetoursSansEcritures(s: Etat, s1: Etat, ms': seq<Mouvement>, tx: nat, n: nat)
    requires s.produits == s1.produits && s.mouvements == s1.mouvements && n <= |s.produits|
    ensures RetoursJusqua(s1, ms', tx, n) == RetoursJusqua(s, ms', tx, n)
    decreases n
  {
    if n > 0 {
      RetoursSansEcritures(s, s1, ms', tx, n - 1);
      if ms' != [] { RetoursSansEcritures(s, s1, ms'[..|ms'| - 1], tx, n - 1); }
    }
  }

  // ── The reply ───────────────────────────────────────────────────────────

  /** The list answered says of each row the restitution wrote its product, its name and the quantity given back. */
  ghost predicate ReponseDit(ms: seq<Mouvement>, ms': seq<Mouvement>, rs: seq<Routes.Restitution>) {
    && |ms'| == |ms| + |rs| && ms'[..|ms|] == ms
    && forall k :: 0 <= k < |rs| ==> Dit(rs[k], ms'[|ms| + k])
  }

  predicate Dit(x: Routes.Restitution, r: Mouvement) {
    r.genre == Annulation && r.produit == Some(x.produit) && x.nom == r.nom && x.quantite == 0.0 - r.retranchee > 0.0
  }

  lemma ReponseDePlus(ms: seq<Mouvement>, ms': seq<Mouvement>, rs: seq<Routes.Restitution>, x: Routes.Restitution, r: Mouvement)
    requires ReponseDit(ms, ms', rs) && Dit(x, r)
    ensures ReponseDit(ms, ms' + [r], rs + [x])
  {
    forall k | 0 <= k < |rs + [x]| ensures Dit((rs + [x])[k], (ms' + [r])[|ms| + k]) {
      if k < |rs| { assert Dit(rs[k], ms'[|ms| + k]); }
    }
  }

  lemma UnPassage(s: Etat, m: Etat, tx: nat, p: nat)
    requires p < |s.produits| && |m.produits| == |s.produits| && (m.produits[p].Some? <==> s.produits[p].Some?)
    ensures var u, ms' := Routes.UneRestitution(s.produits, s.mouvements, tx, p), RestituerUn(m, s.mouvements, tx, p).mouvements;
      if u.None? then ms' == m.mouvements
      else |ms'| == |m.mouvements| + 1 && ms' == m.mouvements + [ms'[|m.mouvements|]] && Dit(u.value, ms'[|m.mouvements|])
  {
  }

  lemma {:induction false} ReponsesTiennent(s: Etat, tx: nat, n: nat)
    requires n <= |s.produits|
    ensures ReponseDit(s.mouvements, RestituerJusqua(s, s.mouvements, tx, n).mouvements, Routes.Restitutions(s.produits, s.mouvements, tx, n))
  {
    if n > 0 {
      var m, rs := RestituerJusqua(s, s.mouvements, tx, n - 1), Routes.Restitutions(s.produits, s.mouvements, tx, n - 1);
      var u, m' := Routes.UneRestitution(s.produits, s.mouvements, tx, n - 1), RestituerUn(m, s.mouvements, tx, n - 1);
      assert RestituerJusqua(s, s.mouvements, tx, n) == m';
      ReponsesTiennent(s, tx, n - 1);
      UnPassage(s, m, tx, n - 1);
      if u.Some? { ReponseDePlus(s.mouvements, m.mouvements, rs, u.value, m'.mouvements[|m.mouvements|]); }
    } else {
      assert s.mouvements[..|s.mouvements|] == s.mouvements;
    }
  }

  /** What a restitution answers is what it wrote, row for row. */
  lemma ReponseExacte(s: Etat, tx: nat)
    ensures ReponseDit(s.mouvements, RestituerStock(s, tx).mouvements, Routes.Restitutions(s.produits, s.mouvements, tx, |s.produits|))
  {
    ReponsesTiennent(s, tx, |s.produits|);
  }

  // ── Who may cancel what ─────────────────────────────────────────────────

  /** The line's status and nothing else of it. */
  ghost predicate StatutSeul(s: Etat, s': Etat, id: nat, statut: Statut) {
    id < |s.ecritures| && s'.ecritures == s.ecritures[id := s.ecritures[id].(statut := statut)]
  }

  /**
   A merchant cancels exactly her own validated sales of the day, while the day is not closed; each refusal has its
   condition and changes nothing. A cancellation marks the sale and gives its stock back.
   */
  lemma AnnulerExact(s: Etat, m: Marchand, id: nat, t: int)
    ensures var (s', rep) := AnnulerVente(s, m, id, t);
      var sienne := id < |s.ecritures| && s.ecritures[id].marchand == m;
      && (rep == Refusee(Introuvable) <==> !sienne)
      && (sienne ==>
            var e := s.ecritures[id];
            var duJour := e.statut == Validee && Jour(e.creeLe) == Jour(t);
            var ouverte := (m, Jour(t)) in s.sessions ==> s.sessions[(m, Jour(t))].ouvert;
            && (rep.Ok? <==> e.nature == Vente && duJour && ouverte)
            && (rep == Refusee(Invalide) <==> e.nature != Vente)
            && (rep == Refusee(NonAnnulable) <==> e.nature == Vente && !duJour)
            && (rep == Refusee(JourneeFermee) <==> e.nature == Vente && duJour && !ouverte))
      && (rep.Refusee? ==> s' == s)
      && (rep.Ok? ==> StatutSeul(s, s', id, Annulee) && StockRendu(s, s', id))
  {
    if id < |s.ecritures| { RetourExact(s, s.ecritures[id := s.ecritures[id].(statut := Annulee)], id); }
  }

  /**
   An administrator gives any line any status, with a reason for the three that need one. Stock is given back exactly
   when the line becomes cancelled, and never taken again.
   */
  lemma ChangerExact(s: Etat, id: nat, statut: Statut, motif: bool)
    ensures var (s', rep) := ChangerStatut(s, id, statut, motif);
      && (rep.Ok? <==> id < |s.ecritures| && ((statut == Gelee || statut == Annulee || statut == Litige) ==> motif))
      && (rep.Refusee? ==> s' == s)
      && (rep.Ok? ==>
            && StatutSeul(s, s', id, statut)
            && if statut == Annulee && s.ecritures[id].statut != Annulee then StockRendu(s, s', id) else s' == s.(ecritures := s'.ecritures))
  {
    if id < |s.ecritures| { RetourExact(s, s.ecritures[id := s.ecritures[id].(statut := statut)], id); }
  }
}
