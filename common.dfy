/** Results and the errors the pipeline raises.

    Every `raise UserWarning(...)`, and every Python exception the code runs
    into on some input (an IndexError, a KeyError, a ZeroDivisionError, an
    IOError on a missing file), becomes one constructor of `Error`, so that
    the error paths are values the contracts can talk about. */
module Common {

  datatype Error =
    // fba_utils.py
    | NoGenesInRule
    | DuplicateReactions
    | ReactionNotFound(name: string)
    | MediaNotAvailable(media: string)
    // Python list indexing out of range (`[...][0]` on an empty list, `sorted[index]`)
    | IndexOutOfRange
    // `model.reactions.get_by_id` on an id the model does not have
    | UnknownReaction(id: string)
    // a float division by a zero wild-type growth
    | ZeroDivision
    // a rule without genes, or naming a gene the deletion result does not know
    | MalformedRule
    // the scripts' argument checks
    | WrongArgumentCount
    // double_knockouts.py
    | SameGenes
    | GeneNotInModel(gene: string)
    // enzyme.py
    | NoReactionRules
    | ShapeMismatch
    // collate_cluster_output.py
    | GrowthButNoFile(carbon: string, nitrogen: string)
    | FileMissing(path: string)
    | UnknownOrMissingGenes(path: string)
    | UnexpectedCount(path: string, found: nat, expected: int)
    | DuplicateEntries
    | MalformedPickle(path: string)

  datatype Result<+T> = Ok(value: T) | Err(error: Error) {
    predicate IsFailure() {
      Err?
    }

    function PropagateFailure<U>(): Result<U>
      requires Err?
    {
      Err(error)
    }

    function Extract(): T
      requires Ok?
    {
      value
    }
  }

  datatype Option<+T> = None | Some(value: T)
}
