/** Failure-carrying results shared by every module of the model. */
module Wrappers {

  /** A present value or nothing, as a Python `dict.get` without default yields. */
  datatype Option<+T> = None | Some(value: T)

  /** The reasons an operation of the model stops, standing for the exception
      the Python code would raise at the same point. */
  datatype Error =
    | EmptyInput                         // min()/max()/mean() of nothing, fitting on no rows
    | LengthMismatch                     // parallel sequences of different length
    | NonPositiveTotal                   // all categorical weights sum to zero or less
    | MissingColumn                      // KeyError on a column the table or record lacks
    | NonNumericTarget                   // a target cell that is not a number
    | NonNumericFeature                  // a scaled or passed-through feature cell that is text
    | MixedCategories                    // a one-hot column mixing numbers and text
    | UnknownCategory                    // OneHotEncoder.transform on an unseen category
    | EmptyHiddenLayer                   // MLPRegressor refuses a hidden layer of size 0
    | UnseenStratum                      // dict KeyError on the stratum lookup
    | NegativeScale                      // scipy's norm.rvs refuses a negative standard deviation

  datatype Result<+T> = Ok(value: T) | Err(error: Error)
}
