/** The vocabulary of the null-distribution notebook: compounds are named by
    their `pert_iname`, MOAs by their label, and the errors the script can
    raise on the paths the model covers. */
module Domain {

  type Compound = string
  type Moa = string

  /** An MOA label mapped to the compounds that belong to it (`all_moa_dict`). */
  type MoaDict = map<Moa, seq<Compound>>

  datatype Error =
    | SampleLargerThanPopulation  // `random.sample` raises ValueError when k < 0 or k > len(pool)
    | DrawsExhausted              // the given stream of random choices ended before the loop did
    | UnboundLocal                // a local name read before any assignment (UnboundLocalError)

  datatype Result<T> = Ok(value: T) | Err(error: Error)
}
