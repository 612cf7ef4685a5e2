/** The Python exceptions raised by the modelled code, and `sys.exit`, as values. */
module Errors {

  datatype Error =
    | AssertionError
    | IndexError
    | KeyError(key: string)
    | TypeError
    | ValueError(text: string)          // `float(text)` rejected its argument
    | AttributeError                    // an attribute looked up on `None`
    | UnboundLocalError                 // a local read before any assignment
    | IOError(path: string)             // a file or directory could not be opened or decoded
    | Exit(code: int)                   // `sys.exit(code)`, or argparse's own exit
    | ZeroDivisionError                 // a division by zero
    | CvError                           // `cv2.error`, from a video writer that refuses an empty frame
}
