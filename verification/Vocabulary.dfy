/** Enumerations several parts of the program share (knowledge/governance.py). */
module Vocabulary {

  datatype Sensitivity = Public | Controlled | SecretMethod | Restricted
}
