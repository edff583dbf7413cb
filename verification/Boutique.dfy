/** The shop journal: idempotent upload and replay (boutique.service.ts). */
module Boutique {
  import opened Commun
  import opened Sommes

  datatype Genre = Vente | Depense | Reappro | Autre

  /** A movement made on a phone; quantity and amount are 0 when absent. */
  datatype Mouvement = Mouvement(id: nat, genre: Genre, produit: Option<string>, quantite: real, montant: real, ts: int)

  /** A row of boutique_mouvements. */
  datatype Rang = Rang(marchand: nat, m: Mouvement)

  datatype Bilan = Bilan(stock: map<string, real>, caisse: real, nombre: nat)

  predicate Present(rs: seq<Rang>, id: nat) { exists i :: 0 <= i < |rs| && rs[i].m.id == id }

  /** INSERT … ON CONFLICT (id) DO NOTHING, for each movement of the batch. */
  function Sync(rs: seq<Rang>, marchand: nat, ms: seq<Mouvement>): seq<Rang> {
    if ms == [] then rs
    else
      var a, m := Sync(rs, marchand, ms[..|ms| - 1]), ms[|ms| - 1];
      if Present(a, m.id) then a else a + [Rang(marchand, m)]
  }

  function Du(rs: seq<Rang>, marchand: nat): seq<Mouvement> {
    if rs == [] then []
    else
      var a := Du(rs[..|rs| - 1], marchand);
      if rs[|rs| - 1].marchand == marchand then a + [rs[|rs| - 1].m] else a
  }

  // ── What the replay computes ────────────────────────────────────────────

  function EffetStock(m: Mouvement): real {
    match m.genre
    case Vente => 0.0 - m.quantite
    case Depense => m.quantite
    case Reappro => m.quantite
    case Autre => 0.0
  }

  predicate ToucheStock(m: Mouvement) { m.produit.Some? && m.produit.value != "" && m.genre != Autre }

  function PoidsStock(p: string): Mouvement -> real {
    (m: Mouvement) => if ToucheStock(m) && m.produit == Some(p) then EffetStock(m) else 0.0
  }

  function PoidsCaisse(): Mouvement -> real {
    (m: Mouvement) => match m.genre case Vente => m.montant case Depense => 0.0 - m.montant case _ => 0.0
  }

  function Rejouer(b: Bilan, m: Mouvement): Bilan {
    Bilan(if ToucheStock(m) then
            b.stock[m.produit.value := (if m.produit.value in b.stock then b.stock[m.produit.value] else 0.0) + EffetStock(m)]
          else b.stock,
          b.caisse + PoidsCaisse()(m),
          b.nombre + 1)
  }

  function Rejeu(ms: seq<Mouvement>): Bilan {
    if ms == [] then Bilan(map[], 0.0, 0) else Rejouer(Rejeu(ms[..|ms| - 1]), ms[|ms| - 1])
  }

  /** The replay is a sum per product, a sum of amounts and a count. */
  lemma {:induction false} RejeuEstSomme(ms: seq<Mouvement>)
    ensures var b := Rejeu(ms);
      && b.nombre == |ms| && b.caisse == Somme(PoidsCaisse(), ms)
      && (forall p :: p in b.stock <==> exists i :: 0 <= i < |ms| && ToucheStock(ms[i]) && ms[i].produit == Some(p))
      && (forall p :: p in b.stock ==> b.stock[p] == Somme(PoidsStock(p), ms))
      && (forall p :: p !in b.stock ==> Somme(PoidsStock(p), ms) == 0.0)
  {
    if ms != [] {
      var a, m := ms[..|ms| - 1], ms[|ms| - 1];
      RejeuEstSomme(a);
      var ba, b := Rejeu(a), Rejeu(ms);
      forall p ensures p in b.stock <==> exists i :: 0 <= i < |ms| && ToucheStock(ms[i]) && ms[i].produit == Some(p) {
        if p in ba.stock {
          var i :| 0 <= i < |a| && ToucheStock(a[i]) && a[i].produit == Some(p);
          assert ToucheStock(ms[i]) && ms[i].produit == Some(p);
        }
        if exists i :: 0 <= i < |ms| && ToucheStock(ms[i]) && ms[i].produit == Some(p) {
          var i :| 0 <= i < |ms| && ToucheStock(ms[i]) && ms[i].produit == Some(p);
          if i < |a| { assert ToucheStock(a[i]) && a[i].produit == Some(p); }
        }
      }
    }
  }

  function Quantite(g: Genre, p: string): Mouvement -> real { (m: Mouvement) => if m.genre == g && m.produit == Some(p) then m.quantite else 0.0 }

  function Montant(g: Genre): Mouvement -> real { (m: Mouvement) => if m.genre == g then m.montant else 0.0 }

  lemma {:induction false} PoidsEnClair(ms: seq<Mouvement>, p: string)
    requires p != ""
    ensures Somme(PoidsStock(p), ms) == Somme(Quantite(Reappro, p), ms) + Somme(Quantite(Depense, p), ms) - Somme(Quantite(Vente, p), ms)
    ensures Somme(PoidsCaisse(), ms) == Somme(Montant(Vente), ms) - Somme(Montant(Depense), ms)
  {
    if ms != [] { PoidsEnClair(ms[..|ms| - 1], p); }
  }

  /**
   What a journal is worth, said of its movements: of each product it names, what came in less what was sold; in cash,
   the sales less the expenses; and how many they are. A movement of another kind moves neither.
   */
  lemma RejeuEnClair(ms: seq<Mouvement>)
    ensures var b := Rejeu(ms);
      && b.nombre == |ms| && b.caisse == Somme(Montant(Vente), ms) - Somme(Montant(Depense), ms)
      && (forall p :: p in b.stock <==> p != "" && exists i :: 0 <= i < |ms| && ms[i].genre != Autre && ms[i].produit == Some(p))
      && (forall p :: p in b.stock ==>
            b.stock[p] == Somme(Quantite(Reappro, p), ms) + Somme(Quantite(Depense, p), ms) - Somme(Quantite(Vente, p), ms))
  {
    var b := Rejeu(ms);
    RejeuEstSomme(ms);
    PoidsEnClair(ms, "x");
    forall p ensures p in b.stock <==> p != "" && exists i :: 0 <= i < |ms| && ms[i].genre != Autre && ms[i].produit == Some(p) {
      if p != "" && exists i :: 0 <= i < |ms| && ms[i].genre != Autre && ms[i].produit == Some(p) {
        var i :| 0 <= i < |ms| && ms[i].genre != Autre && ms[i].produit == Some(p);
        assert ToucheStock(ms[i]);
      }
    }
    forall p | p in b.stock
      ensures b.stock[p] == Somme(Quantite(Reappro, p), ms) + Somme(Quantite(Depense, p), ms) - Somme(Quantite(Vente, p), ms)
    {
      PoidsEnClair(ms, p);
    }
  }

  /** The order of the journal is irrelevant: in particular the sort by `ts`. */
  lemma OrdreIndifferent(a: seq<Mouvement>, b: seq<Mouvement>)
    requires multiset(a) == multiset(b)
    ensures Rejeu(a) == Rejeu(b)
  {
    RejeuEstSomme(a);
    RejeuEstSomme(b);
    SommePermutation(PoidsCaisse(), a, b);
    assert |a| == |multiset(a)| == |multiset(b)| == |b|;
    forall p ensures p in Rejeu(a).stock <==> p in Rejeu(b).stock {
      if p in Rejeu(a).stock { ToucheAussi(a, b, p); }
      if p in Rejeu(b).stock { ToucheAussi(b, a, p); }
    }
    forall p | p in Rejeu(a).stock ensures Rejeu(a).stock[p] == Rejeu(b).stock[p] { SommePermutation(PoidsStock(p), a, b); }
    assert Rejeu(a).stock == Rejeu(b).stock;
  }

  lemma ToucheAussi(a: seq<Mouvement>, b: seq<Mouvement>, p: string)
    requires multiset(a) == multiset(b) && exists i :: 0 <= i < |a| && ToucheStock(a[i]) && a[i].produit == Some(p)
    ensures exists i :: 0 <= i < |b| && ToucheStock(b[i]) && b[i].produit == Some(p)
  {
    var i :| 0 <= i < |a| && ToucheStock(a[i]) && a[i].produit == Some(p);
    assert a[i] in multiset(a);
    assert a[i] in b;
    var j :| 0 <= j < |b| && b[j] == a[i];
  }

  // ── Convergence ─────────────────────────────────────────────────────────

  datatype Envoi = Envoi(marchand: nat, lot: seq<Mouvement>)

  function Recevoir(rs: seq<Rang>, es: seq<Envoi>): seq<Rang> {
    if es == [] then rs
    else Sync(Recevoir(rs, es[..|es| - 1]), es[|es| - 1].marchand, es[|es| - 1].lot)
  }

  /** What was sent, by whom. */
  ghost predicate Envoye(es: seq<Envoi>, r: Rang) {
    exists k :: 0 <= k < |es| && es[k].marchand == r.marchand && r.m in es[k].lot
  }

  /** An id determines its movement and its merchant. */
  ghost predicate IdsFiables(es: seq<Envoi>) {
    forall r, r': Rang :: Envoye(es, r) && Envoye(es, r') && r.m.id == r'.m.id ==> r == r'
  }

  ghost predicate IdsUniques(rs: seq<Rang>) {
    forall i, j :: 0 <= i < j < |rs| ==> rs[i].m.id != rs[j].m.id
  }

  lemma {:induction false} SyncContenu(rs: seq<Rang>, marchand: nat, ms: seq<Mouvement>)
    requires IdsUniques(rs)
    ensures var r := Sync(rs, marchand, ms);
      && rs <= r && IdsUniques(r)
      && (forall x :: x in r ==> x in rs || (x.marchand == marchand && x.m in ms))
      && (forall m :: m in ms ==> Present(r, m.id))
  {
    if ms != [] {
      var a, m := ms[..|ms| - 1], ms[|ms| - 1];
      SyncContenu(rs, marchand, a);
      var ra, r := Sync(rs, marchand, a), Sync(rs, marchand, ms);
      if !Present(ra, m.id) { assert r[|ra|].m.id == m.id; }
      assert Present(r, m.id);
      forall x | x in ms ensures Present(r, x.id) {
        if x in a { assert Present(ra, x.id); var i :| 0 <= i < |ra| && ra[i].m.id == x.id; assert r[i].m.id == x.id; }
      }
    }
  }

  /** From an empty table, the rows are exactly what was sent, each once. */
  lemma {:induction false} RecevoirContenu(es: seq<Envoi>)
    ensures IdsUniques(Recevoir([], es))
    ensures forall x :: x in Recevoir([], es) ==> Envoye(es, x)
    ensures forall x :: Envoye(es, x) ==> Present(Recevoir([], es), x.m.id)
  {
    if es != [] {
      var a, e := es[..|es| - 1], es[|es| - 1];
      RecevoirContenu(a);
      var ra, r := Recevoir([], a), Recevoir([], es);
      SyncContenu(ra, e.marchand, e.lot);
      forall x | x in r ensures Envoye(es, x) {
        if x in ra {
          var k :| 0 <= k < |a| && a[k].marchand == x.marchand && x.m in a[k].lot;
          assert es[k].marchand == x.marchand && x.m in es[k].lot;
        } else {
          assert es[|es| - 1].marchand == x.marchand;
        }
      }
      forall x | Envoye(es, x) ensures Present(r, x.m.id) {
        var k :| 0 <= k < |es| && es[k].marchand == x.marchand && x.m in es[k].lot;
        if k < |a| {
          assert a[k].marchand == x.marchand;
          assert Envoye(a, x) && Present(ra, x.m.id);
          var i :| 0 <= i < |ra| && ra[i].m.id == x.m.id;
          assert r[i].m.id == x.m.id;
        }
      }
    }
  }

  lemma ContenuExact(es: seq<Envoi>, x: Rang)
    requires IdsFiables(es)
    ensures x in Recevoir([], es) <==> Envoye(es, x)
  {
    RecevoirContenu(es);
    if Envoye(es, x) {
      var r := Recevoir([], es);
      var i :| 0 <= i < |r| && r[i].m.id == x.m.id;
      assert r[i] in r;
    }
  }

  lemma {:induction false} DuContenu(rs: seq<Rang>, marchand: nat)
    ensures forall m :: m in Du(rs, marchand) <==> Rang(marchand, m) in rs
    ensures IdsUniques(rs) ==> forall i, j :: 0 <= i < j < |Du(rs, marchand)| ==> Du(rs, marchand)[i].id != Du(rs, marchand)[j].id
  {
    if rs != [] {
      var a, x := rs[..|rs| - 1], rs[|rs| - 1];
      DuContenu(a, marchand);
      assert rs == a + [x];
      var d := Du(a, marchand);
      if IdsUniques(rs) {
        forall i | 0 <= i < |d| ensures d[i].id != x.m.id {
          assert d[i] in d;
          assert Rang(marchand, d[i]) in a;
          var k :| 0 <= k < |a| && a[k] == Rang(marchand, d[i]);
        }
      }
    }
  }

  /** Sequences without repetition and with the same elements are permutations of each other. */
  lemma MemesElements(a: seq<Mouvement>, b: seq<Mouvement>)
    requires forall i, j :: 0 <= i < j < |a| ==> a[i].id != a[j].id
    requires forall i, j :: 0 <= i < j < |b| ==> b[i].id != b[j].id
    requires forall m :: m in a <==> m in b
    ensures multiset(a) == multiset(b)
  {
    forall m ensures multiset(a)[m] == multiset(b)[m] {
      UneFois(a, m);
      UneFois(b, m);
    }
  }

  lemma {:induction false} UneFois(a: seq<Mouvement>, m: Mouvement)
    requires forall i, j :: 0 <= i < j < |a| ==> a[i].id != a[j].id
    ensures multiset(a)[m] == if m in a then 1 else 0
  {
    if a != [] {
      var p, x := a[..|a| - 1], a[|a| - 1];
      assert a == p + [x];
      UneFois(p, m);
      forall i | 0 <= i < |p| ensures p[i] != x { assert a[i].id != a[|a| - 1].id; }
    }
  }

  /** etat, whatever order the rows come back in. */
  function Etat(rs: seq<Rang>, marchand: nat): Bilan { Rejeu(TrierParTs(Du(rs, marchand))) }

  /**
   Convergence: two histories that sent the same movements — in any order, any batching, with any
   duplicates, interleaved with any other merchants — give the same stock, cash and count.
   */
  lemma Convergence(es: seq<Envoi>, fs: seq<Envoi>, marchand: nat)
    requires IdsFiables(es) && IdsFiables(fs)
    requires forall x: Rang :: x.marchand == marchand ==> (Envoye(es, x) <==> Envoye(fs, x))
    ensures Etat(Recevoir([], es), marchand) == Etat(Recevoir([], fs), marchand)
  {
    var re, rf := Recevoir([], es), Recevoir([], fs);
    RecevoirContenu(es);
    RecevoirContenu(fs);
    DuContenu(re, marchand);
    DuContenu(rf, marchand);
    forall m ensures m in Du(re, marchand) <==> m in Du(rf, marchand) {
      ContenuExact(es, Rang(marchand, m));
      ContenuExact(fs, Rang(marchand, m));
    }
    MemesElements(Du(re, marchand), Du(rf, marchand));
    TriPermute(Du(re, marchand));
    TriPermute(Du(rf, marchand));
    OrdreIndifferent(TrierParTs(Du(re, marchand)), TrierParTs(Du(rf, marchand)));
  }

  // ── The sort and the routes ─────────────────────────────────────────────

  /** Stable: after the last element whose ts is not later. */
  function Inserer(ms: seq<Mouvement>, m: Mouvement): seq<Mouvement> {
    if ms == [] || ms[|ms| - 1].ts <= m.ts then ms + [m]
    else Inserer(ms[..|ms| - 1], m) + [ms[|ms| - 1]]
  }

  function TrierParTs(ms: seq<Mouvement>): seq<Mouvement> {
    if ms == [] then [] else Inserer(TrierParTs(ms[..|ms| - 1]), ms[|ms| - 1])
  }

  lemma {:induction false} InsererPermute(ms: seq<Mouvement>, m: Mouvement)
    ensures multiset(Inserer(ms, m)) == multiset(ms) + multiset{m}
  {
    if !(ms == [] || ms[|ms| - 1].ts <= m.ts) {
      InsererPermute(ms[..|ms| - 1], m);
      assert ms == ms[..|ms| - 1] + [ms[|ms| - 1]];
    }
  }

  lemma {:induction false} TriPermute(ms: seq<Mouvement>)
    ensures multiset(TrierParTs(ms)) == multiset(ms)
  {
    if ms != [] {
      var a, m := ms[..|ms| - 1], ms[|ms| - 1];
      TriPermute(a);
      InsererPermute(TrierParTs(a), m);
      assert multiset(ms) == multiset(a) + multiset{m} by { assert ms == a + [m]; }
    }
  }

  predicate Trie(ms: seq<Mouvement>) { forall i, j :: 0 <= i < j < |ms| ==> ms[i].ts <= ms[j].ts }

  lemma {:induction false} InsererTrie(ms: seq<Mouvement>, m: Mouvement)
    requires Trie(ms)
    ensures Trie(Inserer(ms, m))
    ensures forall i :: 0 <= i < |Inserer(ms, m)| ==> Inserer(ms, m)[i] == m || Inserer(ms, m)[i] in ms
  {
    if !(ms == [] || ms[|ms| - 1].ts <= m.ts) { InsererTrie(ms[..|ms| - 1], m); }
  }

  /** The replay really reads the journal in the order of `ts`. */
  lemma {:induction false} TriTrie(ms: seq<Mouvement>)
    ensures Trie(TrierParTs(ms))
  {
    if ms != [] {
      TriTrie(ms[..|ms| - 1]);
      InsererTrie(TrierParTs(ms[..|ms| - 1]), ms[|ms| - 1]);
    }
  }

  class JournalBoutique {
    var rangs: seq<Rang>

    constructor ()
      ensures rangs == []
    {
      rangs := [];
    }

    /** Every id of the batch is acknowledged, written or not. */
    method Synchroniser(marchand: nat, mouvements: seq<Mouvement>) returns (acquittes: seq<nat>, recus: nat)
      modifies this
      ensures rangs == Sync(old(rangs), marchand, mouvements)
      ensures |acquittes| == |mouvements| == recus && forall i :: 0 <= i < |mouvements| ==> acquittes[i] == mouvements[i].id
    {
      acquittes := [];
      var i := 0;
      while i < |mouvements|
        invariant 0 <= i <= |mouvements| && |acquittes| == i
        invariant rangs == Sync(old(rangs), marchand, mouvements[..i])
        invariant forall k :: 0 <= k < i ==> acquittes[k] == mouvements[k].id
      {
        var m := mouvements[i];
        assert mouvements[..i + 1][..i] == mouvements[..i];
        if !Present(rangs, m.id) { rangs := rangs + [Rang(marchand, m)]; }
        acquittes := acquittes + [m.id];
        i := i + 1;
      }
      assert mouvements[..|mouvements|] == mouvements;
      recus := |mouvements|;
    }

    /** The state is recomputed by replay, never stored. */
    method LireEtat(marchand: nat) returns (stock: map<string, real>, caisse: real, nombre: nat)
      ensures Bilan(stock, caisse, nombre) == Etat(rangs, marchand)
    {
      var rows := TrierParTs(Du(rangs, marchand));
      stock, caisse := map[], 0.0;
      var i := 0;
      while i < |rows|
        invariant 0 <= i <= |rows|
        invariant Bilan(stock, caisse, i) == Rejeu(rows[..i])
      {
        var m := rows[i];
        assert rows[..i + 1][..i] == rows[..i];
        match m.genre {
          case Vente =>
            if m.produit.Some? && m.produit.value != "" {
              stock := stock[m.produit.value := (if m.produit.value in stock then stock[m.produit.value] else 0.0) - m.quantite];
            }
            caisse := caisse + m.montant;
          case Depense =>
            if m.produit.Some? && m.produit.value != "" {
              stock := stock[m.produit.value := (if m.produit.value in stock then stock[m.produit.value] else 0.0) + m.quantite];
            }
            caisse := caisse - m.montant;
          case Reappro =>
            if m.produit.Some? && m.produit.value != "" {
              stock := stock[m.produit.value := (if m.produit.value in stock then stock[m.produit.value] else 0.0) + m.quantite];
            }
          case Autre =>
        }
        i := i + 1;
      }
      assert rows[..|rows|] == rows;
      nombre := |rows|;
    }
  }
}
