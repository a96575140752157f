/** Loading the site table and the credential table from rows that
    `fgetcsv` has already parsed. */
module Loader {
  import opened Wrappers
  import opened Php
  import opened Fetcher

  /** One parsed CSV line: a blank line parses to a single null cell. */
  type CsvRow = seq<Value>

  /** `$row[i]`: null when the row has no such cell. */
  function Cell(row: CsvRow, i: nat): Value {
    if i < |row| then row[i] else None
  }

  /** An entry of `$sites`. */
  datatype Site = Site(url: string, platform: Value, staging: Value)

  /** What every loaded site satisfies: a truthy url, and optional columns
      that are null or truthy. */
  predicate Loaded(site: Site) {
    && Truthy(Some(site.url))
    && (site.platform == None || Truthy(site.platform))
    && (site.staging == None || Truthy(site.staging))
  }

  /** The sites one row contributes: none when its url is falsy. */
  function SiteRow(row: CsvRow): seq<Site> {
    var url := OrNull(Cell(row, 0));
    if Truthy(url) then [Site(url.value, OrNull(Cell(row, 1)), OrNull(Cell(row, 2)))] else []
  }

  /** `$sites` after reading `rows`. */
  function SitesOf(rows: seq<CsvRow>): seq<Site>
    decreases |rows|
  {
    if rows == [] then [] else SitesOf(rows[..|rows| - 1]) + SiteRow(rows[|rows| - 1])
  }

  /** Reading is row by row: the sites of a concatenation are the
      concatenation of the sites, order kept. */
  lemma {:induction false} SitesOfAppend(a: seq<CsvRow>, b: seq<CsvRow>)
    ensures SitesOf(a + b) == SitesOf(a) + SitesOf(b)
    decreases |b|
  {
    if b == [] {
      assert a + b == a;
    } else {
      SitesOfAppend(a, b[..|b| - 1]);
      assert (a + b)[..|a + b| - 1] == a + b[..|b| - 1];
    }
  }

  /** A site is loaded exactly when some row with a truthy url produces it. */
  lemma {:induction false} SitesOfMembership(rows: seq<CsvRow>, site: Site)
    ensures site in SitesOf(rows) <==> exists i :: 0 <= i < |rows| && SiteRow(rows[i]) == [site]
    decreases |rows|
  {
    if rows != [] {
      var init := rows[..|rows| - 1];
      SitesOfMembership(init, site);
      if site in SitesOf(rows) && site !in SitesOf(init) {
        assert SiteRow(rows[|rows| - 1]) == [site];
      }
      if exists i :: 0 <= i < |rows| && SiteRow(rows[i]) == [site] {
        var i :| 0 <= i < |rows| && SiteRow(rows[i]) == [site];
        if i < |rows| - 1 {
          assert init[i] == rows[i];
        }
      }
    }
  }

  /** Every loaded site has a truthy url and null-or-truthy optional columns. */
  lemma {:induction false} SitesOfLoaded(rows: seq<CsvRow>)
    ensures forall k :: 0 <= k < |SitesOf(rows)| ==> Loaded(SitesOf(rows)[k])
    decreases |rows|
  {
    if rows != [] {
      SitesOfLoaded(rows[..|rows| - 1]);
    }
  }

  /** The site-table loop (the CSV reader hands over the parsed rows). */
  method LoadSites(rows: seq<CsvRow>) returns (sites: seq<Site>)
    ensures sites == SitesOf(rows)
  {
    sites := [];
    var i := 0;
    while i < |rows|
      invariant 0 <= i <= |rows|
      invariant sites == SitesOf(rows[..i])
    {
      var row := rows[i];
      var url := OrNull(Cell(row, 0));
      var platform := OrNull(Cell(row, 1));
      var staging := OrNull(Cell(row, 2));
      if Truthy(url) {
        sites := sites + [Site(url.value, platform, staging)];
      }
      assert rows[..i + 1][..i] == rows[..i];
      i := i + 1;
    }
    assert rows[..i] == rows;
  }

  /** The key column of a credential row, after `?: null`. */
  function KeyOf(row: CsvRow): Value {
    OrNull(Cell(row, 0))
  }

  function CredentialOf(row: CsvRow): Credential {
    Credential(OrNull(Cell(row, 1)), OrNull(Cell(row, 2)))
  }

  /** `$credentials` after reading `rows`: each row with a truthy key
      overwrites the entry for that key. */
  function CredentialsOf(rows: seq<CsvRow>): map<string, Credential>
    decreases |rows|
  {
    if rows == [] then map[]
    else
      var table := CredentialsOf(rows[..|rows| - 1]);
      var row := rows[|rows| - 1];
      if Truthy(KeyOf(row)) then table[KeyOf(row).value := CredentialOf(row)] else table
  }

  /** The table has an entry for a key exactly when some row carries that
      key, truthy. */
  lemma {:induction false} CredentialsOfKeys(rows: seq<CsvRow>, key: string)
    ensures key in CredentialsOf(rows) <==> exists i :: 0 <= i < |rows| && Truthy(KeyOf(rows[i])) && KeyOf(rows[i]).value == key
    decreases |rows|
  {
    if rows != [] {
      var init := rows[..|rows| - 1];
      CredentialsOfKeys(init, key);
      if exists i :: 0 <= i < |rows| && Truthy(KeyOf(rows[i])) && KeyOf(rows[i]).value == key {
        var i :| 0 <= i < |rows| && Truthy(KeyOf(rows[i])) && KeyOf(rows[i]).value == key;
        if i < |rows| - 1 {
          assert init[i] == rows[i];
        }
      }
    }
  }

  /** On duplicate keys the last row wins. */
  lemma {:induction false} CredentialsOfLastWins(rows: seq<CsvRow>, i: nat)
    requires i < |rows| && Truthy(KeyOf(rows[i]))
    requires forall j :: i < j < |rows| ==> KeyOf(rows[j]) != KeyOf(rows[i])
    ensures KeyOf(rows[i]).value in CredentialsOf(rows)
    ensures CredentialsOf(rows)[KeyOf(rows[i]).value] == CredentialOf(rows[i])
    decreases |rows|
  {
    var init := rows[..|rows| - 1];
    if i < |rows| - 1 {
      assert init[i] == rows[i];
      forall j | i < j < |init| ensures KeyOf(init[j]) != KeyOf(init[i]) {
        assert init[j] == rows[j];
      }
      CredentialsOfLastWins(init, i);
      assert KeyOf(rows[|rows| - 1]) != KeyOf(rows[i]);
    }
  }

  /** The credential-table loop. */
  method LoadCredentials(rows: seq<CsvRow>) returns (credentials: map<string, Credential>)
    ensures credentials == CredentialsOf(rows)
  {
    credentials := map[];
    var i := 0;
    while i < |rows|
      invariant 0 <= i <= |rows|
      invariant credentials == CredentialsOf(rows[..i])
    {
      var row := rows[i];
      var key := OrNull(Cell(row, 0));
      var username := OrNull(Cell(row, 1));
      var password := OrNull(Cell(row, 2));
      if Truthy(key) {
        credentials := credentials[key.value := Credential(username, password)];
      }
      assert rows[..i + 1][..i] == rows[..i];
      i := i + 1;
    }
    assert rows[..i] == rows;
  }
}
