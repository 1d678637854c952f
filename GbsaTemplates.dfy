/**
 * `FILE_TEMPLATES`: the six fixed files the generator writes into every
 * `gbsa` directory, in the dictionary's order. The texts carry no
 * substitution: the mutation label `Q94R` is written into them as is.
 */
module GbsaTemplates {
  import opened Text

  datatype Template = Template(name: string, content: string)

  /** The topology every cpptraj input of the set loads. */
  const Topology := "./strip.1xjv_POT1_ssDNA-Q94R_wat.prmtop"
  /** The solvent-free trajectory `pt-strip-Q94R.in` writes and `MM-GBSA.sh` analyses. */
  const StrippedTrajectory := "1xjv_POT1_ssDNA_Q94R_wat_MMPBSA_26-1025.nc"
  /** The MMPBSA.py settings file, itself one of the templates. */
  const SettingsFile := "MM-GBSA.in"

  /** The pieces of a text, one after the other. */
  function Concat(pieces: seq<string>): string {
    if pieces == [] then "" else pieces[0] + Concat(pieces[1..])
  }

  const StripIn := Concat(StripInPieces)
  const StripInPieces := [
    "parm " + Topology + "\n\n",
    "trajin 1xjv_POT1_ssDNA-Q94R_wat_imaged_26-1025.nc\n\n",
    "autoimage origin\nstrip :WAT,K+\n\n",
    "trajout " + StrippedTrajectory,
    " netcdf\nrun\n"]

  const ParmstripRecIn := Concat(ParmstripRecInPieces)
  const ParmstripRecInPieces := [
    "parm " + Topology + "\n\n",
    "parmstrip :WAT,K+\nparmstrip :295-304\n\n",
    "parmwrite out rec.prmtop",
    "\n\n"]

  const ParmstripLigIn := Concat(ParmstripLigInPieces)
  const ParmstripLigInPieces := [
    "parm " + Topology + "\n\n",
    "parmstrip :WAT,K+\nparmstrip :1-294\n\n",
    "parmwrite out lig.prmtop",
    "\n\n"]

  const ParmstripComIn := Concat(ParmstripComInPieces)
  const ParmstripComInPieces := [
    "parm " + Topology + "\n\n",
    "parmstrip :WAT,K+\n\n",
    "parmwrite out com.prmtop",
    "\n\n"]

  const MmGbsaSh := Concat(MmGbsaShPieces)
  const MmGbsaShPieces := [
    "#!/bin/bash\n#SBATCH --job-name=mmpbsa\n",
    "#SBATCH --output=mmpbsa.out       \n#SBATCH --error=mmpbsa.err\n",
    "#SBATCH --nodes=1\n#SBATCH --mem=6G\n",
    "#SBATCH --partition=cisneros\n#SBATCH --nodelist=g-02-04\n\n",
    "module load openmpi4/4.1.1\nmodule load cuda/11.7.0\n",
    "module load amber/24-cuda\nmodule list\n\n",
    "#cpptraj -i pt-strip.in > pt-strip.log\n",
    "#cpptraj -i pt-parmstrip_com.in > pt-parmstrip_com.log\n",
    "#cpptraj -i pt-parmstrip_tox.in > pt-parmstrip_tox.log\n",
    "#cpptraj -i pt-parmstrip_anti.in > pt-parmstrip_anti.log\n\n",
    "mpirun -np 1 MMPBSA.py.MPI -O ",
    "-i " + SettingsFile,
    " -o mmgbsa.dat ",
    "-cp com.prmtop",
    " ",
    "-rp rec.prmtop",
    " ",
    "-lp lig.prmtop",
    " ",
    "-y " + StrippedTrajectory,
    " > mmgbsa.log\n\n"]

  const MmGbsaIn := Concat(MmGbsaInPieces)
  const MmGbsaInPieces := [
    "&general\n   startframe=167500,\n   endframe=177500,\n   interval=1,\n",
    "   receptor_mask=\":1-294\",\n   ligand_mask=\":295-304\",\n",
    "   verbose=1,\n   keep_files=2,\n   debug_printlevel=1,\n",
    "   netcdf=1,\n   use_sander=1\n/\n",
    "&gb\n  igb=5, \n  saltcon=0.150,\n/\n"]

  const FileTemplates: seq<Template> := [
    Template("pt-strip-Q94R.in", StripIn),
    Template("pt-parmstrip_rec.in", ParmstripRecIn),
    Template("pt-parmstrip_lig.in", ParmstripLigIn),
    Template("pt-parmstrip_com.in", ParmstripComIn),
    Template("MM-GBSA.sh", MmGbsaSh),
    Template(SettingsFile, MmGbsaIn)
  ]

  /** The template names are distinct: the set is a dictionary keyed by them. */
  lemma TemplateNamesDistinct()
    ensures |FileTemplates| == 6
    ensures forall i, j | 0 <= i < j < |FileTemplates| :: FileTemplates[i].name != FileTemplates[j].name
  {
    assert FileTemplates[1].name[13] == 'r' && FileTemplates[2].name[13] == 'l' && FileTemplates[3].name[13] == 'c';
    assert FileTemplates[4].name[9] == 'h' && FileTemplates[5].name[9] == 'n';
  }

  /** Of the six names exactly one, `MM-GBSA.sh`, ends with `.sh`. */
  lemma OnlyMmGbsaShIsScript()
    ensures forall k | 0 <= k < |FileTemplates| ::
      EndsWith(FileTemplates[k].name, ".sh") <==> FileTemplates[k].name == "MM-GBSA.sh"
    ensures FileTemplates[4].name == "MM-GBSA.sh"
  {
    assert FileTemplates[0].name[14] == 'i';
    assert FileTemplates[1].name[17] == 'i';
    assert FileTemplates[2].name[17] == 'i';
    assert FileTemplates[3].name[17] == 'i';
    assert FileTemplates[5].name[8] == 'i';
    assert FileTemplates[4].name[7..] == ".sh";
  }

  /** Each piece of a text occurs in it. */
  lemma {:induction false} ContainsPiece(pieces: seq<string>, k: nat)
    requires k < |pieces|
    ensures Contains(Concat(pieces), pieces[k])
  {
    if k == 0 {
      ContainsInfix([], pieces[0], Concat(pieces[1..]));
      assert [] + pieces[0] + Concat(pieces[1..]) == Concat(pieces);
    } else {
      ContainsPiece(pieces[1..], k - 1);
      ContainsSuffix(pieces[0], Concat(pieces[1..]), pieces[k]);
    }
  }

  lemma {:induction false} ContainsSuffix(a: string, b: string, sub: string)
    requires Contains(b, sub)
    ensures Contains(a + b, sub)
  {
    if a == [] {
      assert a + b == b;
    } else {
      ContainsSuffix(a[1..], b, sub);
      assert (a + b)[1..] == a[1..] + b;
    }
  }

  /**
   * The files fit together: the trajectory `pt-strip-Q94R.in` writes is the one
   * `MM-GBSA.sh` analyses, the three topologies the `pt-parmstrip` inputs write
   * are the ones it passes to MMPBSA.py, and it reads its settings from the
   * `MM-GBSA.in` template.
   */
  lemma TemplatesFitTogether()
    ensures Contains(StripIn, "trajout " + StrippedTrajectory)
    ensures Contains(MmGbsaSh, "-y " + StrippedTrajectory)
    ensures Contains(ParmstripRecIn, "parmwrite out rec.prmtop") && Contains(MmGbsaSh, "-rp rec.prmtop")
    ensures Contains(ParmstripLigIn, "parmwrite out lig.prmtop") && Contains(MmGbsaSh, "-lp lig.prmtop")
    ensures Contains(ParmstripComIn, "parmwrite out com.prmtop") && Contains(MmGbsaSh, "-cp com.prmtop")
    ensures Contains(MmGbsaSh, "-i " + FileTemplates[5].name)
  {
    TrajectoryFits();
    ReceptorFits();
    LigandFits();
    ComplexFits();
    SettingsFit();
  }

  lemma TrajectoryFits()
    ensures Contains(StripIn, "trajout " + StrippedTrajectory)
    ensures Contains(MmGbsaSh, "-y " + StrippedTrajectory)
  {
    ContainsPiece(StripInPieces, 3);
    ContainsPiece(MmGbsaShPieces, 19);
  }

  lemma ReceptorFits()
    ensures Contains(ParmstripRecIn, "parmwrite out rec.prmtop") && Contains(MmGbsaSh, "-rp rec.prmtop")
  {
    ContainsPiece(ParmstripRecInPieces, 2);
    ContainsPiece(MmGbsaShPieces, 15);
  }

  lemma LigandFits()
    ensures Contains(ParmstripLigIn, "parmwrite out lig.prmtop") && Contains(MmGbsaSh, "-lp lig.prmtop")
  {
    ContainsPiece(ParmstripLigInPieces, 2);
    ContainsPiece(MmGbsaShPieces, 17);
  }

  lemma ComplexFits()
    ensures Contains(ParmstripComIn, "parmwrite out com.prmtop") && Contains(MmGbsaSh, "-cp com.prmtop")
  {
    ContainsPiece(ParmstripComInPieces, 2);
    ContainsPiece(MmGbsaShPieces, 13);
  }

  lemma SettingsFit()
    ensures Contains(MmGbsaSh, "-i " + FileTemplates[5].name)
  {
    ContainsPiece(MmGbsaShPieces, 11);
  }
}
