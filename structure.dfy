/**
 * The structure manifest the gateway builds for a protein record: an
 * experimental structure from the RCSB PDB when the record lists PDB ids,
 * and the AlphaFold DB prediction for the accession otherwise.
 */
module Structure {
  import opened Wrappers

  /**
   * The `pdb_ids` value of the record: missing or None, a list, or a JSON
   * text that was never decoded (a Python `str`).
   */
  datatype PdbIds = NoIds | IdList(ids: seq<string>) | Stringified(text: string)

  datatype ProteinData = ProteinData(
    primaryAccession: Option<string>, pdbIds: PdbIds, bindingSites: Option<seq<string>>,
    proteinName: Option<string>, organism: Option<string>)

  datatype Source = RcsbPdb | AlphaFoldDb

  datatype StructureRef = StructureRef(id: Option<string>, source: Source, url: string)

  datatype Manifest = Manifest(
    accession: Option<string>, structure: StructureRef, residueHighlights: seq<string>,
    name: Option<string>, organism: Option<string>)

  const PdbPrefix := "https://files.rcsb.org/view/"
  const PdbSuffix := ".pdb"
  const AlphaFoldPrefix := "https://alphafold.ebi.ac.uk/files/AF-"
  const AlphaFoldSuffix := "-F1-model_v4.pdb"

  /** How `str.format` writes the id: None is written "None". */
  function IdText(id: Option<string>): string {
    if id.Some? then id.value else "None"
  }

  function Url(source: Source, id: Option<string>): (u: string)
    ensures source == RcsbPdb ==> u == PdbPrefix + IdText(id) + PdbSuffix
    ensures source == AlphaFoldDb ==> u == AlphaFoldPrefix + IdText(id) + AlphaFoldSuffix
  {
    match source
    case RcsbPdb => PdbPrefix + IdText(id) + PdbSuffix
    case AlphaFoldDb => AlphaFoldPrefix + IdText(id) + AlphaFoldSuffix
  }

  /** `if pdb_ids and len(pdb_ids) > 0`: a non-empty list or a non-empty string. */
  predicate HasPdbIds(p: PdbIds) {
    (p.IdList? && p.ids != []) || (p.Stringified? && p.text != "")
  }

  /** `pdb_ids[0]`: of a string, its first character. */
  function FirstPdbId(p: PdbIds): string
    requires HasPdbIds(p)
  {
    if p.IdList? then p.ids[0] else p.text[..1]
  }

  /** `generate_manifest(protein_data)`. */
  function GenerateManifest(d: ProteinData): (m: Manifest)
    ensures m.accession == d.primaryAccession
    ensures m.residueHighlights == (if d.bindingSites.Some? then d.bindingSites.value else [])
    ensures m.name == d.proteinName && m.organism == d.organism
    ensures HasPdbIds(d.pdbIds) <==> m.structure.source == RcsbPdb
    ensures HasPdbIds(d.pdbIds) ==> m.structure.id == Some(FirstPdbId(d.pdbIds))
    ensures !HasPdbIds(d.pdbIds) ==> m.structure.id == d.primaryAccession
    ensures m.structure.url == Url(m.structure.source, m.structure.id)
  {
    var structure :=
      if HasPdbIds(d.pdbIds) then
        var id := Some(FirstPdbId(d.pdbIds));
        StructureRef(id, RcsbPdb, Url(RcsbPdb, id))
      else
        StructureRef(d.primaryAccession, AlphaFoldDb, Url(AlphaFoldDb, d.primaryAccession));
    Manifest(d.primaryAccession, structure, if d.bindingSites.Some? then d.bindingSites.value else [],
             d.proteinName, d.organism)
  }

  /** The id is read back from its URL by stripping the source's fixed prefix and suffix. */
  function IdFromUrl(source: Source, url: string): Option<string> {
    var (prefix, suffix) := if source == RcsbPdb then (PdbPrefix, PdbSuffix) else (AlphaFoldPrefix, AlphaFoldSuffix);
    if |url| >= |prefix| + |suffix| && url[..|prefix|] == prefix && url[|url| - |suffix|..] == suffix
    then Some(url[|prefix|..|url| - |suffix|])
    else None
  }

  /** The manifest's URL determines the id it was built from. */
  lemma {:induction false} UrlRoundTrip(source: Source, id: Option<string>)
    ensures IdFromUrl(source, Url(source, id)) == Some(IdText(id))
  {
    var u := Url(source, id);
    if source == RcsbPdb {
      assert u[..|PdbPrefix|] == PdbPrefix;
      assert u[|u| - |PdbSuffix|..] == PdbSuffix;
      assert u[|PdbPrefix|..|u| - |PdbSuffix|] == IdText(id);
    } else {
      assert u[..|AlphaFoldPrefix|] == AlphaFoldPrefix;
      assert u[|u| - |AlphaFoldSuffix|..] == AlphaFoldSuffix;
      assert u[|AlphaFoldPrefix|..|u| - |AlphaFoldSuffix|] == IdText(id);
    }
  }

  /** For every record, the manifest's structure id is recovered from its URL. */
  lemma ManifestIdFromUrl(d: ProteinData)
    ensures var s := GenerateManifest(d).structure;
      IdFromUrl(s.source, s.url) == Some(IdText(s.id))
  {
    var s := GenerateManifest(d).structure;
    UrlRoundTrip(s.source, s.id);
  }

  /** A record whose `pdb_ids` was left as JSON text names the structure by the text's first character. */
  lemma StringifiedIdsUseFirstChar(d: ProteinData)
    requires d.pdbIds == Stringified("[\"1ABC\"]")
    ensures GenerateManifest(d).structure == StructureRef(Some("["), RcsbPdb, PdbPrefix + "[" + PdbSuffix)
  {
    assert d.pdbIds.text[..1] == "[";
  }

  /** A record without PDB ids and without an accession points at an AlphaFold file named for "None". */
  lemma MissingAccessionUrl(d: ProteinData)
    requires !HasPdbIds(d.pdbIds) && d.primaryAccession.None?
    ensures GenerateManifest(d).structure.url == AlphaFoldPrefix + "None" + AlphaFoldSuffix
  {
  }
}
