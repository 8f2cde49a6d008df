/**
 * The failures the core raises. The source throws a plain `Error` whose
 * message is the only thing callers inspect (the controller compares it
 * with "Product not found"), so each variant carries its exact message.
 */
module Errors {

  datatype Error =
    | EmptyName           // raised by the Product constructor
    | NonPositivePrice    // raised by the Product constructor
    | DiscountOutOfRange  // raised by calculateDiscountedPrice
    | EmptyId             // raised by ProductService.getProductById
    | NotFound            // raised by ProductService.getProductById
  {
    /** The exact text each throw site passes to `new Error`. */
    function Message(): (m: string)
      ensures m == "Product not found" <==> this == NotFound
    {
      match this
      case EmptyName => "Product name cannot be empty"
      case NonPositivePrice => "Product price must be positive"
      case DiscountOutOfRange => "Discount percentage must be between 0 and 100"
      case EmptyId => "Product ID cannot be empty"
      case NotFound => "Product not found"
    }
  }

  /** The message identifies the error, so dispatching on the message text is sound. */
  lemma MessageIdentifiesError(e: Error, e': Error)
    ensures e.Message() == e'.Message() <==> e == e'
  {
  }
}
