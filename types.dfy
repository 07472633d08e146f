/** Records shared by the finder's components. */
module Types {

  datatype Option<T> = None | Some(value: T)

  /** Which strand a spacer is read from. */
  datatype Strand = Fw | Rv

  /** The finder's global tuning constants, passed explicitly. */
  datatype Config = Config(
    pam: string,                   // PAM motif that precedes every spacer
    spacerLength: nat,             // spacer length, in bases
    integrationSiteDistance: int,  // distance from spacer to predicted insertion site
    useOffset: bool,               // widen the search windows by the integration distance
    flexBase: bool,                // rewrite every flexSpacing-th base as N before alignment
    flexSpacing: nat)

  /** The command-line defaults. */
  const Defaults: Config := Config("CC", 32, 49, true, true, 6)

  /** A guide-RNA candidate. `fingerprint` is empty until region assembly attaches it. */
  datatype Candidate = Candidate(
    name: string,
    strand: Strand,
    location: int,
    spacer: string,
    fingerprint: string)

  /** A gene as the finder sees it: `start <= end` in reference coordinates whatever its strand. */
  datatype Gene = Gene(name: string, start: int, end: int, direction: Strand)

  /** No value occurs twice. */
  predicate Distinct<T(==)>(s: seq<T>)
  {
    forall i, j :: 0 <= i < j < |s| ==> s[i] != s[j]
  }
}
