/** Credits: the till, the credit, its audit trail and the client's debt say the same thing. */
module CreditLois {
  import opened Commun
  import opened Tables
  import opened Sommes
  import opened Caisse
  import ConstatLois

  // ── What was paid on a credit ───────────────────────────────────────────

  function PourCredit(i: nat): Audit -> real { (a: Audit) => if a.credit == i then a.montant else 0.0 }

  predicate EstEncaissement(e: Ecriture) { e.nature == AcompteCredit || e.nature == ReglementCredit }

  /** What a credit payment's till line and its audit row have in common. */
  datatype Trace = Trace(m: Marchand, nature: Nature, montant: real)

  function TracesCaisse(es: seq<Ecriture>): seq<Trace> {
    if es == [] then []
    else
      var e := es[|es| - 1];
      TracesCaisse(es[..|es| - 1]) + if EstEncaissement(e) then [Trace(e.marchand, e.nature, e.montant)] else []
  }

  function TracesAudit(aus: seq<Audit>): seq<Trace> {
    if aus == [] then []
    else
      var a := aus[|aus| - 1];
      TracesAudit(aus[..|aus| - 1]) + [Trace(a.marchand, a.nature, a.montant)]
  }

  lemma TracesAjout(es: seq<Ecriture>, e: Ecriture)
    ensures TracesCaisse(es + [e]) == TracesCaisse(es) + if EstEncaissement(e) then [Trace(e.marchand, e.nature, e.montant)] else []
  {
    assert (es + [e])[..|es|] == es;
  }

  lemma {:induction false} TracesStatut(es: seq<Ecriture>, i: nat, statut: Statut)
    requires i < |es|
    ensures TracesCaisse(es[i := es[i].(statut := statut)]) == TracesCaisse(es)
  {
    var n, es' := |es| - 1, es[i := es[i].(statut := statut)];
    if i == n { assert es'[..n] == es[..n]; }
    else {
      assert es'[..n] == es[..n][i := es[..n][i].(statut := statut)];
      TracesStatut(es[..n], i, statut);
    }
  }

  lemma TracesAuditAjout(aus: seq<Audit>, a: Audit)
    ensures TracesAudit(aus + [a]) == TracesAudit(aus) + [Trace(a.marchand, a.nature, a.montant)]
  {
    assert (aus + [a])[..|aus|] == aus;
  }

  // ── The law of credits ──────────────────────────────────────────────────

  ghost predicate Entier(x: real) { Arrondir(x) == x }

  /** One credit: its payments sum to `acompte`, within the rounded total; paid exactly at the rounded total. */
  ghost predicate CreditJuste(s: Etat, i: nat)
    requires i < |s.credits|
  {
    var c := s.credits[i];
    && c.acompte == Somme(PourCredit(i), s.audits)
    && Entier(c.acompte) && 0.0 <= c.acompte
    && (c.acompte > 0.0 ==> c.acompte <= Arrondir(c.total))
    && (c.paye <==> c.acompte > 0.0 && c.acompte == Arrondir(c.total))
  }

  /** One payment: a settlement exactly when it is the last one of a paid credit. */
  ghost predicate AuditJuste(s: Etat, k: nat)
    requires k < |s.audits|
  {
    var a := s.audits[k];
    && a.credit < |s.credits| && a.marchand == s.credits[a.credit].marchand
    && a.montant > 0.0 && (a.nature == AcompteCredit || a.nature == ReglementCredit)
    && (a.nature == ReglementCredit <==> s.credits[a.credit].paye && DernierDuCredit(s.audits, k))
  }

  ghost predicate DernierDuCredit(aus: seq<Audit>, k: nat)
    requires k < |aus|
  {
    forall j :: k < j < |aus| ==> aus[j].credit != aus[k].credit
  }

  ghost predicate LoiCredit(s: Etat) {
    && (forall i :: 0 <= i < |s.credits| ==> CreditJuste(s, i))
    && (forall k :: 0 <= k < |s.audits| ==> AuditJuste(s, k))
    && TracesCaisse(s.ecritures) == TracesAudit(s.audits)
  }

  /** Rounding moves by exactly the whole amount added. */
  lemma ArrondirEntier(x: real, n: real)
    requires Entier(n)
    ensures Arrondir(x + n) == Arrondir(x) + n && Arrondir(x - n) == Arrondir(x) - n
  {
    var k := (n + 0.5).Floor;
    assert (x + n + 0.5).Floor == (x + 0.5).Floor + k;
    assert (x - n + 0.5).Floor == (x + 0.5).Floor - k;
  }

  lemma ArrondiEntier(x: real)
    ensures Entier(Arrondir(x))
  {
    var k := (x + 0.5).Floor;
    assert (k as real + 0.5).Floor == k;
  }

  lemma SansPaiement(s: Etat, i: nat)
    requires forall k :: 0 <= k < |s.audits| ==> s.audits[k].credit != i
    ensures Somme(PourCredit(i), s.audits) == 0.0
  {
    SommeNulle(PourCredit(i), s.audits);
  }

  lemma PoserGardeLoiCredit(s: Etat, m: Marchand, client: string, total: real)
    requires LoiCredit(s)
    ensures LoiCredit(PoserCredit(s, m, client, total))
  {
    var s' := PoserCredit(s, m, client, total);
    forall k | 0 <= k < |s'.audits| ensures AuditJuste(s', k) { assert AuditJuste(s, k); }
    forall i | 0 <= i < |s'.credits| ensures CreditJuste(s', i) {
      if i < |s.credits| { assert CreditJuste(s, i); }
      else {
        forall k | 0 <= k < |s.audits| ensures s.audits[k].credit != i { assert AuditJuste(s, k); }
        SansPaiement(s, i);
      }
    }
  }

  /** The primitive really wrote a payment (rather than refusing, or recognising a replay). */
  predicate Encaisse(s: Etat, m: Marchand, id: nat, brut: real, cle: string) {
    && Arrondir(brut) > 0.0 && cle != "" && id < |s.credits| && s.credits[id].marchand == m
    && !ClePrise(s.ecritures, cle)
    && Arrondir(brut) <= Max(0.0, Arrondir(s.credits[id].total) - Arrondir(s.credits[id].acompte))
  }

  lemma PaiementGardeCredits(s: Etat, m: Marchand, id: nat, montant: real, resteAvant: real, cle: string, t: int)
    requires LoiCredit(s) && id < |s.credits|
    requires montant > 0.0 && Entier(montant) && montant <= resteAvant == Arrondir(s.credits[id].total) - s.credits[id].acompte
    ensures var s' := EcrirePaiement(s, m, id, montant, resteAvant, cle, t);
      forall i :: 0 <= i < |s'.credits| ==> CreditJuste(s', i)
  {
    var s' := EcrirePaiement(s, m, id, montant, resteAvant, cle, t);
    assert CreditJuste(s, id);
    ArrondirEntier(s.credits[id].acompte, montant);
    forall i | 0 <= i < |s'.credits| ensures CreditJuste(s', i) {
      assert CreditJuste(s, i);
      SommeAjout(PourCredit(i), s.audits, s'.audits[|s.audits|]);
    }
  }

  lemma PaiementGardeAudits(s: Etat, m: Marchand, id: nat, montant: real, resteAvant: real, cle: string, t: int)
    requires LoiCredit(s) && id < |s.credits| && s.credits[id].marchand == m && !s.credits[id].paye && montant > 0.0
    ensures var s' := EcrirePaiement(s, m, id, montant, resteAvant, cle, t);
      forall k :: 0 <= k < |s'.audits| ==> AuditJuste(s', k)
  {
    var s' := EcrirePaiement(s, m, id, montant, resteAvant, cle, t);
    var n := |s.audits|;
    assert s'.audits[n].credit == id;
    forall k | 0 <= k < |s'.audits| ensures AuditJuste(s', k) {
      if k < n {
        assert AuditJuste(s, k) && s'.audits[k] == s.audits[k];
        if s.audits[k].credit == id {
          assert !DernierDuCredit(s'.audits, k);
        } else {
          assert DernierDuCredit(s.audits, k) ==> DernierDuCredit(s'.audits, k);
          assert DernierDuCredit(s'.audits, k) ==> DernierDuCredit(s.audits, k) by {
            assert forall j :: k < j < n ==> s'.audits[j] == s.audits[j];
          }
        }
      }
    }
  }

  lemma PaiementGardeTraces(s: Etat, m: Marchand, id: nat, montant: real, resteAvant: real, cle: string, t: int)
    requires TracesCaisse(s.ecritures) == TracesAudit(s.audits) && id < |s.credits|
    ensures var s' := EcrirePaiement(s, m, id, montant, resteAvant, cle, t);
      TracesCaisse(s'.ecritures) == TracesAudit(s'.audits)
  {
    var s' := EcrirePaiement(s, m, id, montant, resteAvant, cle, t);
    TracesAjout(s.ecritures, s'.ecritures[|s.ecritures|]);
    TracesAuditAjout(s.audits, s'.audits[|s.audits|]);
  }

  lemma GardeLoiCreditSiPaiement(s: Etat, m: Marchand, id: nat, montant: real, resteAvant: real, cle: string, t: int)
    requires LoiCredit(s) && id < |s.credits| && s.credits[id].marchand == m && !s.credits[id].paye
    requires montant > 0.0 && Entier(montant) && montant <= resteAvant == Arrondir(s.credits[id].total) - s.credits[id].acompte
    ensures LoiCredit(EcrirePaiement(s, m, id, montant, resteAvant, cle, t))
  {
    PaiementGardeCredits(s, m, id, montant, resteAvant, cle, t);
    PaiementGardeAudits(s, m, id, montant, resteAvant, cle, t);
    PaiementGardeTraces(s, m, id, montant, resteAvant, cle, t);
  }

  /** What the primitive does, under the law of credits: the four writes, or nothing at all. */
  lemma EncaisserEcritOuRien(s: Etat, m: Marchand, id: nat, brut: real, cle: string, t: int)
    requires LoiCredit(s)
    ensures var s' := EncaisserCredit(s, m, id, brut, cle, t).0;
      if Encaisse(s, m, id, brut, cle)
      then s' == EcrirePaiement(s, m, id, Arrondir(brut), Arrondir(s.credits[id].total) - s.credits[id].acompte, cle, t)
           && Arrondir(brut) <= Arrondir(s.credits[id].total) - s.credits[id].acompte && !s.credits[id].paye
      else s' == s
  {
    if id < |s.credits| { assert CreditJuste(s, id); }
  }

  lemma EncaisserGardeLoiCredit(s: Etat, m: Marchand, id: nat, brut: real, cle: string, t: int)
    requires LoiCredit(s)
    ensures LoiCredit(EncaisserCredit(s, m, id, brut, cle, t).0)
  {
    EncaisserEcritOuRien(s, m, id, brut, cle, t);
    if Encaisse(s, m, id, brut, cle) {
      var montant, reste := Arrondir(brut), Arrondir(s.credits[id].total) - s.credits[id].acompte;
      ArrondiEntier(brut);
      GardeLoiCreditSiPaiement(s, m, id, montant, reste, cle, t);
    }
  }

  /** What the other routes leave alone: credits and audits as they were, till lines of other natures. */
  lemma HorsCredit(s: Etat, s': Etat)
    requires LoiCredit(s)
    requires s'.credits == s.credits && s'.audits == s.audits
    requires TracesCaisse(s'.ecritures) == TracesCaisse(s.ecritures)
    ensures LoiCredit(s')
  {
    forall i | 0 <= i < |s'.credits| ensures CreditJuste(s', i) { assert CreditJuste(s, i); }
    forall k | 0 <= k < |s'.audits| ensures AuditJuste(s', k) { assert AuditJuste(s, k); }
  }

  /** The tables credits live in are as they were, and no credit payment line appeared. */
  ghost predicate HorsDesCredits(s: Etat, s': Etat) {
    s'.credits == s.credits && s'.clients == s.clients && s'.audits == s.audits
    && TracesCaisse(s'.ecritures) == TracesCaisse(s.ecritures)
  }

  lemma VenteHorsCredits(s: Etat, m: Marchand, d: DemandeVente, t: int)
    ensures HorsDesCredits(s, EnregistrerVente(s, m, d, t).0)
  {
    if ConstatLois.VenteAcceptee(s, m, d, t) {
      var e := Ecriture(m, Vente, d.montant.n, Validee, InstantDe(d.date, t), d.cle);
      ConstatLois.LignesGardentEcritures(AssurerSession(s, (m, Jour(t))).(ecritures := s.ecritures + [e]), m, |s.ecritures|, LignesVendues(d));
      TracesAjout(s.ecritures, e);
    }
  }

  lemma DepenseHorsCredits(s: Etat, m: Marchand, d: DemandeDepense, t: int)
    ensures HorsDesCredits(s, EnregistrerDepense(s, m, d, t).0)
  {
    if ConstatLois.DepenseAcceptee(s, m, d, t) {
      TracesAjout(s.ecritures, Ecriture(m, Depense, d.montant.n, Validee, InstantDe(d.date, t), d.cle));
    }
  }

  lemma StatutHorsCredits(s: Etat, id: nat, st: Statut, motif: bool)
    ensures HorsDesCredits(s, ChangerStatut(s, id, st, motif).0)
  {
    if id < |s.ecritures| { TracesStatut(s.ecritures, id, st); }
  }

  lemma AnnulerHorsCredits(s: Etat, m: Marchand, id: nat, t: int)
    ensures HorsDesCredits(s, AnnulerVente(s, m, id, t).0)
  {
    if id < |s.ecritures| { TracesStatut(s.ecritures, id, Annulee); }
  }

  lemma SansEcriture(s: Etat, r: Requete)
    requires r.ROuvrir? || r.RFond? || r.RFermer? || SurProduits(r)
    ensures Etape(s, r).ecritures == s.ecritures && HorsDesCredits(s, Etape(s, r))
  {
  }

  lemma AutresRoutes(s: Etat, r: Requete)
    requires !r.RCredit? && !r.RPayer? && !r.RAcompte?
    ensures HorsDesCredits(s, Etape(s, r))
  {
    match r
    case RVente(m, d, t) => VenteHorsCredits(s, m, d, t);
    case RDepense(m, d, t) => DepenseHorsCredits(s, m, d, t);
    case REcriture(m, n, x, t) => TracesAjout(s.ecritures, Ecriture(m, n, x, Validee, t, None));
    case RAnnuler(m, id, t) => AnnulerHorsCredits(s, m, id, t);
    case RStatut(id, st, motif) => StatutHorsCredits(s, id, st, motif);
    case _ => SansEcriture(s, r);
  }

  lemma CreerGardeLoiCredit(s: Etat, m: Marchand, d: DemandeCredit, t: int)
    requires LoiCredit(s)
    ensures LoiCredit(CreerCredit(s, m, d, t).0)
  {
    if d.total.Nombre? {
      PoserGardeLoiCredit(s, m, d.client, d.total.n);
      EncaisserGardeLoiCredit(PoserCredit(s, m, d.client, d.total.n), m, |s.credits|, Verse(d), CleCreation(d.cle, |s.credits|), t);
    }
  }

  lemma PayerGardeLoiCredit(s: Etat, m: Marchand, id: nat, cle: Option<string>, t: int)
    requires LoiCredit(s)
    ensures LoiCredit(MarquerPaye(s, m, id, cle, t).0)
  {
    if id < |s.credits| {
      EncaisserGardeLoiCredit(s, m, id, Arrondir(s.credits[id].total - s.credits[id].acompte), CleReglement(cle, id), t);
    }
  }

  lemma EtapeGardeLoiCredit(s: Etat, r: Requete)
    requires LoiCredit(s)
    ensures LoiCredit(Etape(s, r))
  {
    match r
    case RCredit(m, d, t) => CreerGardeLoiCredit(s, m, d, t);
    case RPayer(m, id, cle, t) => PayerGardeLoiCredit(s, m, id, cle, t);
    case RAcompte(m, id, x, cle, t) =>
      if x.Some? && cle.Some? { EncaisserGardeLoiCredit(s, m, id, x.value, CleAcompte(cle.value), t); }
    case _ => AutresRoutes(s, r); HorsCredit(s, Etape(s, r));
  }

  /** Over every run, for every total, whole or not: the law of credits. */
  lemma {:induction false} RunCredit(s: Etat, rs: seq<Requete>)
    requires LoiCredit(s)
    ensures LoiCredit(Executer(s, rs))
  {
    if rs != [] {
      RunCredit(s, rs[..|rs| - 1]);
      EtapeGardeLoiCredit(Executer(s, rs[..|rs| - 1]), rs[|rs| - 1]);
    }
  }

  lemma {:induction false} DernierPaiement(aus: seq<Audit>, i: nat) returns (k: nat)
    requires Somme(PourCredit(i), aus) != 0.0
    ensures k < |aus| && aus[k].credit == i && DernierDuCredit(aus, k)
  {
    var n := |aus| - 1;
    if aus[n].credit == i { k := n; }
    else { k := DernierPaiement(aus[..n], i); }
  }

  /** A paid credit has exactly one settlement, and it is its last payment; an unpaid one has none. */
  lemma UnSeulReglement(s: Etat, i: nat)
    requires LoiCredit(s) && i < |s.credits|
    ensures s.credits[i].paye <==> exists k :: 0 <= k < |s.audits| && s.audits[k].credit == i && s.audits[k].nature == ReglementCredit
    ensures forall j, k :: 0 <= j < k < |s.audits| && s.audits[j].credit == i && s.audits[k].credit == i ==>
      s.audits[j].nature == AcompteCredit
  {
    assert CreditJuste(s, i);
    if s.credits[i].paye {
      var k := DernierPaiement(s.audits, i);
      assert AuditJuste(s, k);
      assert s.audits[k].nature == ReglementCredit;
    }
    forall k | 0 <= k < |s.audits| && s.audits[k].credit == i && s.audits[k].nature == ReglementCredit
      ensures s.credits[i].paye { assert AuditJuste(s, k); }
    forall j, k | 0 <= j < k < |s.audits| && s.audits[j].credit == i && s.audits[k].credit == i
      ensures s.audits[j].nature == AcompteCredit
    {
      assert AuditJuste(s, j);
      assert s.audits[k].credit == s.audits[j].credit;
      assert !DernierDuCredit(s.audits, j);
    }
  }

  // ── Till and credits agree ──────────────────────────────────────────────

  function PaiementsDe(m: Marchand): Trace -> real { (x: Trace) => if x.m == m then x.montant else 0.0 }

  function AcomptesDe(m: Marchand): Credit -> real { (c: Credit) => if c.marchand == m then c.acompte else 0.0 }

  /** The merchant's share of the first k audit rows. */
  lemma {:induction false} PaiementsEtAudits(s: Etat, m: Marchand, k: nat)
    requires k <= |s.audits| && forall j :: 0 <= j < k ==> AuditJuste(s, j)
    ensures Somme(PaiementsDe(m), TracesAudit(s.audits[..k])) == SommeParCredit(s, m, s.audits[..k], |s.credits|)
  {
    if k == 0 {
      CreditsSansAudit(s, m, |s.credits|);
    } else {
      var a := s.audits[k - 1];
      assert s.audits[..k] == s.audits[..k - 1] + [a];
      PaiementsEtAudits(s, m, k - 1);
      TracesAuditAjout(s.audits[..k - 1], a);
      SommeAjout(PaiementsDe(m), TracesAudit(s.audits[..k - 1]), Trace(a.marchand, a.nature, a.montant));
      assert AuditJuste(s, k - 1);
      UnAuditDePlus(s, m, s.audits[..k - 1], a, |s.credits|);
    }
  }

  /** The sum, over the merchant's first n credits, of what `aus` records as paid on each. */
  function SommeParCredit(s: Etat, m: Marchand, aus: seq<Audit>, n: nat): real
    requires n <= |s.credits|
  {
    if n == 0 then 0.0
    else SommeParCredit(s, m, aus, n - 1) + if s.credits[n - 1].marchand == m then Somme(PourCredit(n - 1), aus) else 0.0
  }

  lemma {:induction false} CreditsSansAudit(s: Etat, m: Marchand, n: nat)
    requires n <= |s.credits|
    ensures SommeParCredit(s, m, [], n) == 0.0
  {
    if n > 0 { CreditsSansAudit(s, m, n - 1); }
  }

  lemma {:induction false} UnAuditDePlus(s: Etat, m: Marchand, aus: seq<Audit>, a: Audit, n: nat)
    requires n <= |s.credits| && a.credit < |s.credits| && a.marchand == s.credits[a.credit].marchand
    ensures SommeParCredit(s, m, aus + [a], n)
         == SommeParCredit(s, m, aus, n) + if a.credit < n && a.marchand == m then a.montant else 0.0
  {
    if n > 0 {
      UnAuditDePlus(s, m, aus, a, n - 1);
      SommeAjout(PourCredit(n - 1), aus, a);
    }
  }

  lemma {:induction false} AcomptesParCredit(s: Etat, m: Marchand, n: nat)
    requires LoiCredit(s) && n <= |s.credits|
    ensures SommeParCredit(s, m, s.audits, n) == Somme(AcomptesDe(m), s.credits[..n])
  {
    if n > 0 {
      AcomptesParCredit(s, m, n - 1);
      assert CreditJuste(s, n - 1);
      assert s.credits[..n] == s.credits[..n - 1] + [s.credits[n - 1]];
      SommeAjout(AcomptesDe(m), s.credits[..n - 1], s.credits[n - 1]);
    }
  }

  /** The credit payment lines of a merchant's till add up to the payments recorded on her credits. */
  lemma CaisseEtCreditsDAccord(s: Etat, m: Marchand)
    requires LoiCredit(s)
    ensures Somme(PaiementsDe(m), TracesCaisse(s.ecritures)) == Somme(AcomptesDe(m), s.credits)
  {
    assert s.audits[..|s.audits|] == s.audits && s.credits[..|s.credits|] == s.credits;
    PaiementsEtAudits(s, m, |s.audits|);
    AcomptesParCredit(s, m, |s.credits|);
  }

  /**
   What the primitive answers is what the tables then say: what is left to pay, a settlement exactly
   when nothing is, and a replay exactly when nothing was written — with the same figures as if it had been.
   */
  lemma ReponseHonnete(s: Etat, m: Marchand, id: nat, brut: real, cle: string, t: int)
    requires LoiCredit(s) && EncaisserCredit(s, m, id, brut, cle, t).1.Ok?
    ensures var (s', rep) := EncaisserCredit(s, m, id, brut, cle, t);
      && id < |s'.credits| == |s.credits|
      && rep.valeur.resteApres == Max(0.0, Arrondir(s'.credits[id].total) - s'.credits[id].acompte)
      && (rep.valeur.nature == ReglementCredit <==> rep.valeur.resteApres == 0.0)
      && (rep.valeur.rejeu <==> s' == s)
      && (!rep.valeur.rejeu ==> (s'.credits[id].paye <==> rep.valeur.resteApres == 0.0))
  {
    assert CreditJuste(s, id);
    EncaisserEcritOuRien(s, m, id, brut, cle, t);
    var c := s.credits[id];
    if ClePrise(s.ecritures, cle) { ResteArrondi(c.total, c.acompte); }
    else { assert |EncaisserCredit(s, m, id, brut, cle, t).0.audits| == |s.audits| + 1; }
  }

  lemma ResteArrondi(total: real, acompte: real)
    requires Entier(acompte)
    ensures Arrondir(Max(0.0, total - acompte)) == Max(0.0, Arrondir(total) - acompte)
  {
    ArrondirEntier(total, acompte);
    if total - acompte < 0.0 { assert (0.0 + 0.5).Floor == 0 && (total - acompte + 0.5).Floor <= 0; }
    else { assert (total - acompte + 0.5).Floor >= 0; }
  }

  // ── The client's debt ───────────────────────────────────────────────────

  /** What one credit contributes to the debt of client `cle`. */
  function ResteDe(cle: CleClient): Credit -> real {
    (c: Credit) => if c.marchand == cle.0 && c.client == cle.1 then c.total - c.acompte else 0.0
  }

  ghost predicate DetteJuste(s: Etat, cle: CleClient) {
    cle in s.clients ==> s.clients[cle].montantDu == Somme(ResteDe(cle), s.credits)
  }

  /** clients.montant_du is the sum of what the client's credits still owe; every credit's client is known. */
  ghost predicate LoiDette(s: Etat) {
    && (forall cle: CleClient :: DetteJuste(s, cle))
    && (forall i :: 0 <= i < |s.credits| ==> (s.credits[i].marchand, s.credits[i].client) in s.clients)
  }

  lemma ClientInconnu(s: Etat, cle: CleClient)
    requires LoiDette(s) && cle !in s.clients
    ensures Somme(ResteDe(cle), s.credits) == 0.0
  {
    SommeNulle(ResteDe(cle), s.credits);
  }

  lemma PoserGardeLoiDette(s: Etat, m: Marchand, client: string, total: real)
    requires LoiDette(s)
    ensures LoiDette(PoserCredit(s, m, client, total))
  {
    var s' := PoserCredit(s, m, client, total);
    forall cle: CleClient ensures DetteJuste(s', cle) {
      assert DetteJuste(s, cle);
      SommeAjout(ResteDe(cle), s.credits, Credit(m, client, total, 0.0, false));
      if cle !in s.clients { ClientInconnu(s, cle); }
    }
  }

  /** A payment keeps the debts exact exactly when GREATEST(0, …) does not clamp. */
  lemma PaiementEtDette(s: Etat, m: Marchand, id: nat, montant: real, resteAvant: real, cle: string, t: int)
    requires LoiDette(s) && id < |s.credits| && s.credits[id].marchand == m
    ensures var client := (m, s.credits[id].client);
      && client in s.clients
      && (LoiDette(EcrirePaiement(s, m, id, montant, resteAvant, cle, t)) <==> montant <= s.clients[client].montantDu)
  {
    var s' := EcrirePaiement(s, m, id, montant, resteAvant, cle, t);
    var client := (m, s.credits[id].client);
    assert client in s.clients && DetteJuste(s, client);
    SommeMaj(ResteDe(client), s.credits, id, s'.credits[id]);
    forall k: CleClient | k != client ensures DetteJuste(s', k) {
      assert DetteJuste(s, k);
      SommeMaj(ResteDe(k), s.credits, id, s'.credits[id]);
    }
    assert DetteJuste(s', client) <==> montant <= s.clients[client].montantDu;
  }

  function UnDe(cle: CleClient): Credit -> real {
    (c: Credit) => if c.marchand == cle.0 && c.client == cle.1 then 1.0 else 0.0
  }

  ghost predicate NombreJuste(s: Etat, cle: CleClient) {
    (if cle in s.clients then s.clients[cle].nbCredits as real else 0.0) == Somme(UnDe(cle), s.credits)
  }

  /** clients.nb_credits counts the client's credits. */
  ghost predicate LoiNombre(s: Etat) { forall cle: CleClient :: NombreJuste(s, cle) }

  lemma PoserGardeNombre(s: Etat, m: Marchand, client: string, total: real)
    requires LoiNombre(s)
    ensures LoiNombre(PoserCredit(s, m, client, total))
  {
    var s' := PoserCredit(s, m, client, total);
    forall cle: CleClient ensures NombreJuste(s', cle) {
      assert NombreJuste(s, cle);
      SommeAjout(UnDe(cle), s.credits, Credit(m, client, total, 0.0, false));
    }
  }

  lemma EncaisserGardeNombre(s: Etat, m: Marchand, id: nat, brut: real, cle: string, t: int)
    requires LoiNombre(s)
    ensures LoiNombre(EncaisserCredit(s, m, id, brut, cle, t).0)
  {
    var s' := EncaisserCredit(s, m, id, brut, cle, t).0;
    if s' != s {
      forall k: CleClient ensures NombreJuste(s', k) {
        assert NombreJuste(s, k);
        SommeMaj(UnDe(k), s.credits, id, s'.credits[id]);
      }
    }
  }

  lemma EtapeGardeNombre(s: Etat, r: Requete)
    requires LoiNombre(s)
    ensures LoiNombre(Etape(s, r))
  {
    match r
    case RCredit(m, d, t) =>
      if d.total.Nombre? {
        PoserGardeNombre(s, m, d.client, d.total.n);
        EncaisserGardeNombre(PoserCredit(s, m, d.client, d.total.n), m, |s.credits|, Verse(d), CleCreation(d.cle, |s.credits|), t);
      }
    case RPayer(m, id, cle, t) =>
      if id < |s.credits| { EncaisserGardeNombre(s, m, id, Arrondir(s.credits[id].total - s.credits[id].acompte), CleReglement(cle, id), t); }
    case RAcompte(m, id, x, cle, t) =>
      if x.Some? && cle.Some? { EncaisserGardeNombre(s, m, id, x.value, CleAcompte(cle.value), t); }
    case _ =>
      AutresRoutes(s, r);
      forall cle: CleClient ensures NombreJuste(Etape(s, r), cle) { assert NombreJuste(s, cle); }
  }

  /** Over every run, whatever the totals. */
  lemma {:induction false} RunNombre(s: Etat, rs: seq<Requete>)
    requires LoiNombre(s)
    ensures LoiNombre(Executer(s, rs))
  {
    if rs != [] {
      RunNombre(s, rs[..|rs| - 1]);
      EtapeGardeNombre(Executer(s, rs[..|rs| - 1]), rs[|rs| - 1]);
    }
  }

  /** A total is honest when rounding it does not exceed it: whole francs are. */
  predicate TotalHonnete(total: real) { 0.0 <= total && Arrondir(total) <= total }

  ghost predicate TotauxHonnetes(s: Etat) {
    forall i :: 0 <= i < |s.credits| ==> TotalHonnete(s.credits[i].total)
  }

  lemma FrancsEntiersHonnetes(n: nat)
    ensures TotalHonnete(n as real)
  {
    assert (n as real + 0.5).Floor == n;
  }

  /** With honest totals the client owes at least what any one of her credits accepts: nothing is ever clamped. */
  lemma JamaisEcrete(s: Etat, m: Marchand, id: nat, brut: real, cle: string)
    requires LoiCredit(s) && LoiDette(s) && TotauxHonnetes(s) && Encaisse(s, m, id, brut, cle)
    ensures (m, s.credits[id].client) in s.clients
    ensures Arrondir(brut) <= s.clients[(m, s.credits[id].client)].montantDu
  {
    var client := (m, s.credits[id].client);
    assert DetteJuste(s, client);
    forall i | 0 <= i < |s.credits| ensures ResteDe(client)(s.credits[i]) >= 0.0 { assert CreditJuste(s, i); }
    SommePositive(ResteDe(client), s.credits);
    assert CreditJuste(s, id);
    assert ResteDe(client)(s.credits[id]) <= Somme(ResteDe(client), s.credits);
  }

  lemma EncaisserGardeLoiDette(s: Etat, m: Marchand, id: nat, brut: real, cle: string, t: int)
    requires LoiCredit(s) && LoiDette(s) && TotauxHonnetes(s)
    ensures LoiDette(EncaisserCredit(s, m, id, brut, cle, t).0) && TotauxHonnetes(EncaisserCredit(s, m, id, brut, cle, t).0)
  {
    EncaisserEcritOuRien(s, m, id, brut, cle, t);
    if Encaisse(s, m, id, brut, cle) {
      JamaisEcrete(s, m, id, brut, cle);
      PaiementEtDette(s, m, id, Arrondir(brut), Arrondir(s.credits[id].total) - s.credits[id].acompte, cle, t);
    }
  }

  lemma CreerGardeLoiDette(s: Etat, m: Marchand, d: DemandeCredit, t: int)
    requires LoiCredit(s) && LoiDette(s) && TotauxHonnetes(s) && (d.total.Nombre? ==> TotalHonnete(d.total.n))
    ensures LoiDette(CreerCredit(s, m, d, t).0) && TotauxHonnetes(CreerCredit(s, m, d, t).0)
  {
    if d.total.Nombre? {
      PoserGardeLoiDette(s, m, d.client, d.total.n);
      PoserGardeLoiCredit(s, m, d.client, d.total.n);
      EncaisserGardeLoiDette(PoserCredit(s, m, d.client, d.total.n), m, |s.credits|, Verse(d), CleCreation(d.cle, |s.credits|), t);
    }
  }

  lemma PayerGardeLoiDette(s: Etat, m: Marchand, id: nat, cle: Option<string>, t: int)
    requires LoiCredit(s) && LoiDette(s) && TotauxHonnetes(s)
    ensures LoiDette(MarquerPaye(s, m, id, cle, t).0) && TotauxHonnetes(MarquerPaye(s, m, id, cle, t).0)
  {
    if id < |s.credits| {
      EncaisserGardeLoiDette(s, m, id, Arrondir(s.credits[id].total - s.credits[id].acompte), CleReglement(cle, id), t);
    }
  }

  lemma HorsDette(s: Etat, s': Etat)
    requires LoiDette(s) && TotauxHonnetes(s) && HorsDesCredits(s, s')
    ensures LoiDette(s') && TotauxHonnetes(s')
  {
    forall cle: CleClient ensures DetteJuste(s', cle) { assert DetteJuste(s, cle); }
  }

  lemma EtapeGardeLoiDette(s: Etat, r: Requete)
    requires LoiCredit(s) && LoiDette(s) && TotauxHonnetes(s)
    requires r.RCredit? && r.credit.total.Nombre? ==> TotalHonnete(r.credit.total.n)
    ensures LoiDette(Etape(s, r)) && TotauxHonnetes(Etape(s, r))
  {
    match r
    case RCredit(m, d, t) => CreerGardeLoiDette(s, m, d, t);
    case RPayer(m, id, cle, t) => PayerGardeLoiDette(s, m, id, cle, t);
    case RAcompte(m, id, x, cle, t) =>
      if x.Some? && cle.Some? { EncaisserGardeLoiDette(s, m, id, x.value, CleAcompte(cle.value), t); }
    case _ => AutresRoutes(s, r); HorsDette(s, Etape(s, r));
  }

  /** Over every run whose credits are created with honest totals, debts are exact. */
  lemma {:induction false} RunDette(s: Etat, rs: seq<Requete>)
    requires LoiCredit(s) && LoiDette(s) && TotauxHonnetes(s)
    requires forall k :: 0 <= k < |rs| && rs[k].RCredit? && rs[k].credit.total.Nombre? ==> TotalHonnete(rs[k].credit.total.n)
    ensures LoiDette(Executer(s, rs)) && TotauxHonnetes(Executer(s, rs))
  {
    if rs != [] {
      var a := rs[..|rs| - 1];
      RunDette(s, a);
      RunCredit(s, a);
      EtapeGardeLoiDette(Executer(s, a), rs[|rs| - 1]);
    }
  }

  /** A run whose only dishonest total is `total`: settle a credit at once, beside a negative one if need be. */
  function RunQuiCasse(m: Marchand, total: real, t: int): seq<Requete> {
    if total > 0.0 then
      [RCredit(m, DemandeCredit("Awa", Nombre(total), Absente, true, None), t), RPayer(m, 0, None, t)]
    else
      [RCredit(m, DemandeCredit("Awa", Nombre(1.0), Absente, true, None), t),
       RCredit(m, DemandeCredit("Awa", Nombre(total), Nombre(total), true, None), t),
       RPayer(m, 0, None, t)]
  }

  /** Creating a credit without a first payment, then settling it. */
  lemma CreerEtSolder(s: Etat, m: Marchand, total: real, id: nat, t: int)
    ensures total >= 0.0 ==>
      Etape(s, RCredit(m, DemandeCredit("Awa", Nombre(total), Absente, true, None), t)) == PoserCredit(s, m, "Awa", total)
    ensures Etape(s, RPayer(m, id, None, t)) == MarquerPaye(s, m, id, None, t).0
  {
  }

  lemma TotalArrondiCasse(m: Marchand, total: real, t: int)
    requires 0.0 < total && !TotalHonnete(total)
    ensures !LoiDette(Executer(VIDE, RunQuiCasse(m, total, t)))
  {
    var rs := RunQuiCasse(m, total, t);
    var s1 := PoserCredit(VIDE, m, "Awa", total);
    PetitesRuns(VIDE, rs[0], rs[1], rs[1]);
    CreerEtSolder(VIDE, m, total, 0, t);
    CreerEtSolder(s1, m, total, 0, t);
    SolderCasse(VIDE, s1, m, 0, total, t);
  }

  lemma UnFrancEnRegle(m: Marchand)
    ensures var s := PoserCredit(VIDE, m, "Awa", 1.0); LoiCredit(s) && LoiDette(s)
  {
    FrancsEntiersHonnetes(1);
    PoserGardeLoiDette(VIDE, m, "Awa", 1.0);
    PoserGardeLoiCredit(VIDE, m, "Awa", 1.0);
  }

  lemma UnFrancEtUnNegatif(m: Marchand, total: real)
    ensures var s := PoserCredit(PoserCredit(VIDE, m, "Awa", 1.0), m, "Awa", total);
      && s.credits == [Credit(m, "Awa", 1.0, 0.0, false), Credit(m, "Awa", total, 0.0, false)]
      && s.clients == map[(m, "Awa") := Client(2, 1.0 + total)] && s.ecritures == [] && s.sessions == map[]
  {
  }

  lemma TotalNegatifCasse(m: Marchand, total: real, t: int)
    requires total < 0.0
    ensures !LoiDette(Executer(VIDE, RunQuiCasse(m, total, t)))
  {
    var rs := RunQuiCasse(m, total, t);
    FrancsEntiersHonnetes(1);
    var s1 := PoserCredit(VIDE, m, "Awa", 1.0);
    var s2 := PoserCredit(s1, m, "Awa", total);
    PetitesRuns(VIDE, rs[0], rs[1], rs[2]);
    CreerEtSolder(VIDE, m, 1.0, 0, t);
    CreerAvecAcompteNegatif(s1, m, total, t);
    CreerEtSolder(s2, m, total, 0, t);
    UnFrancEtUnNegatif(m, total);
    UnFrancEnRegle(m);
    SolderCasse(s1, s2, m, 0, total, t);
  }

  /** The guard on the first payment compares it with the total: a negative total passes with a first payment as low. */
  lemma CreerAvecAcompteNegatif(s: Etat, m: Marchand, total: real, t: int)
    requires total < 0.0
    ensures Etape(s, RCredit(m, DemandeCredit("Awa", Nombre(total), Nombre(total), true, None), t)) == PoserCredit(s, m, "Awa", total)
  {
  }

  /**
   Honest totals are exactly the harmless ones: for any other total there is a run, in which
   every other total is honest, that leaves the client's debt wrong. A total that rounds up
   asks one franc more than is owed; a negative one lowers the debt below another credit's.
   */
  lemma TotalMalhonneteCasse(m: Marchand, total: real, t: int)
    requires !TotalHonnete(total)
    ensures !LoiDette(Executer(VIDE, RunQuiCasse(m, total, t)))
  {
    FrancsEntiersHonnetes(0);
    if total > 0.0 { TotalArrondiCasse(m, total, t); } else { TotalNegatifCasse(m, total, t); }
  }

  /** Settling an untouched credit whose client owes less than its rounded total makes the debt wrong. */
  lemma SolderCasse(s: Etat, s1: Etat, m: Marchand, id: nat, total: real, t: int)
    requires LoiCredit(s) && LoiDette(s) && s1 == PoserCredit(s, m, "Awa", total)
    requires id < |s1.credits| && s1.credits[id].marchand == m && s1.credits[id].client == "Awa"
    requires s1.credits[id].acompte == 0.0 && Arrondir(s1.credits[id].total) > 0.0 && s1.ecritures == [] && s1.sessions == map[]
    requires s1.clients[(m, "Awa")].montantDu < Arrondir(s1.credits[id].total)
    ensures !LoiDette(MarquerPaye(s1, m, id, None, t).0)
  {
    PoserGardeLoiDette(s, m, "Awa", total);
    PoserGardeLoiCredit(s, m, "Awa", total);
    var a := Arrondir(s1.credits[id].total);
    ArrondiEntier(s1.credits[id].total);
    EncaisserEcritOuRien(s1, m, id, a, CleReglement(None, id), t);
    PaiementEtDette(s1, m, id, a, a, CleReglement(None, id), t);
  }
}
