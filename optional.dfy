/** The absence value used where the C++ returns `nullptr` or `std::string::npos`. */
module Optional {

  datatype Option<T> = None | Some(value: T)

}
